/** The client-side checks of frontend/src/pages/Register.jsx: `validate`
    with its email pattern, and the redirect after a successful
    registration. */
module Register {
  import opened Common

  datatype Form = Form(name: string, email: string, password: string, role: string)

  /** The form starts empty, with the student role selected. */
  const InitialForm: Form := Form("", "", "", "student")

  const MinPasswordLength: nat := 6

  const AllFieldsRequired: string := "All fields are required"
  const InvalidEmail: string := "Invalid email"
  const PasswordTooShort: string := "Password must be at least 6 characters"

  /** A character allowed by `[^\s@]`. */
  predicate Plain(c: char) {
    !IsJsSpace(c) && c != '@'
  }

  predicate AllPlain(s: string) {
    forall k :: 0 <= k < |s| ==> Plain(s[k])
  }

  /** What `/^[^\s@]+@[^\s@]+\.[^\s@]+$/` accepts: a non-empty plain local
      part, one '@', and a domain that has a '.' with plain text on both
      sides of it. */
  predicate EmailPattern(s: string) {
    exists i, j :: 0 < i && i + 1 < j && j + 1 < |s| && s[i] == '@' && s[j] == '.'
      && AllPlain(s[..i]) && AllPlain(s[i + 1..j]) && AllPlain(s[j + 1..])
  }

  /** The index of the first '@' at or after `from`, or `|s|`. */
  function FindAt(s: string, from: nat): (r: nat)
    requires from <= |s|
    ensures from <= r <= |s|
    ensures r < |s| ==> s[r] == '@'
    ensures forall k :: from <= k < r ==> s[k] != '@'
    decreases |s| - from
  {
    if from == |s| || s[from] == '@' then from else FindAt(s, from + 1)
  }

  /** The index of a '.' in `s[lo..hi]`, or `hi`. */
  function FindDot(s: string, lo: nat, hi: nat): (r: nat)
    requires lo <= hi <= |s|
    ensures lo <= r <= hi
    ensures r < hi ==> s[r] == '.'
    ensures r == hi ==> forall k :: lo <= k < hi ==> s[k] != '.'
    decreases hi - lo
  {
    if lo == hi || s[lo] == '.' then lo else FindDot(s, lo + 1, hi)
  }

  /** The conditions the scan checks, with `i` the first '@'. */
  predicate ScanAccepts(s: string, i: nat)
    requires i <= |s|
  {
    0 < i < |s| && (forall k :: 0 <= k < |s| ==> !IsJsSpace(s[k]))
    && FindAt(s, i + 1) == |s| && i + 2 <= |s| - 1 && FindDot(s, i + 2, |s| - 1) < |s| - 1
  }

  /** The email test as a scan: no white space anywhere, exactly one '@'
      which is not the first character, and a '.' at least two characters
      after it and before the last character. */
  function IsValidEmail(s: string): (ok: bool)
    ensures ok <==> EmailPattern(s)
  {
    EmailScanSound(s);
    EmailScanComplete(s);
    ScanAccepts(s, FindAt(s, 0))
  }

  lemma PlainAt(s: string, a: nat, b: nat, k: nat)
    requires a <= k < b <= |s| && AllPlain(s[a..b])
    ensures Plain(s[k])
  {
    assert s[a..b][k - a] == s[k];
  }

  lemma PlainSlice(s: string, a: nat, b: nat)
    requires a <= b <= |s|
    requires forall k :: a <= k < b ==> Plain(s[k])
    ensures AllPlain(s[a..b])
  {
    forall k | 0 <= k < b - a ensures Plain(s[a..b][k]) {
      assert s[a..b][k] == s[a + k];
    }
  }

  lemma EmailScanSound(s: string)
    ensures ScanAccepts(s, FindAt(s, 0)) ==> EmailPattern(s)
  {
    var i := FindAt(s, 0);
    if ScanAccepts(s, i) {
      var j := FindDot(s, i + 2, |s| - 1);
      PlainSlice(s, 0, i);
      PlainSlice(s, i + 1, j);
      PlainSlice(s, j + 1, |s|);
      assert s[..i] == s[0..i];
      assert s[j + 1..] == s[j + 1..|s|];
    }
  }

  lemma EmailScanComplete(s: string)
    ensures EmailPattern(s) ==> ScanAccepts(s, FindAt(s, 0))
  {
    if EmailPattern(s) {
      var i, j :| 0 < i && i + 1 < j && j + 1 < |s| && s[i] == '@' && s[j] == '.'
        && AllPlain(s[..i]) && AllPlain(s[i + 1..j]) && AllPlain(s[j + 1..]);
      PlainParts(s, i, j);
      ScanAcceptsSplit(s, i, j);
    }
  }

  lemma ScanAcceptsSplit(s: string, i: nat, j: nat)
    requires 0 < i && i + 1 < j && j + 1 < |s| && s[i] == '@' && s[j] == '.'
    requires forall k :: 0 <= k < |s| && k != i && k != j ==> Plain(s[k])
    ensures FindAt(s, 0) == i && ScanAccepts(s, i)
  {
    FindAtFirst(s, i);
    FindAtNone(s, i + 1);
    assert FindDot(s, i + 2, |s| - 1) < |s| - 1;
    forall k | 0 <= k < |s| ensures !IsJsSpace(s[k]) {
      if k != i && k != j {
        assert Plain(s[k]);
      }
    }
  }

  /** Every character of the three parts is plain. */
  lemma PlainParts(s: string, i: nat, j: nat)
    requires 0 < i < j < |s|
    requires AllPlain(s[..i]) && AllPlain(s[i + 1..j]) && AllPlain(s[j + 1..])
    ensures forall k :: 0 <= k < |s| && k != i && k != j ==> Plain(s[k])
  {
    assert s[..i] == s[0..i];
    assert s[j + 1..] == s[j + 1..|s|];
    forall k | 0 <= k < |s| && k != i && k != j ensures Plain(s[k]) {
      if k < i {
        PlainAt(s, 0, i, k);
      } else if k < j {
        PlainAt(s, i + 1, j, k);
      } else {
        PlainAt(s, j + 1, |s|, k);
      }
    }
  }

  lemma FindAtFirst(s: string, i: nat)
    requires i < |s| && s[i] == '@'
    requires forall k :: 0 <= k < i ==> s[k] != '@'
    ensures FindAt(s, 0) == i
  {
  }

  lemma FindAtNone(s: string, from: nat)
    requires from <= |s|
    requires forall k :: from <= k < |s| ==> s[k] != '@'
    ensures FindAt(s, from) == |s|
  {
  }

  /** `validate`: the emptiness check comes first, then the email pattern,
      then the password length; the empty string means the form is fine. */
  function Validate(f: Form): (err: string)
    ensures err == "" <==> (f.name != "" && f.email != "" && f.password != ""
      && EmailPattern(f.email) && |f.password| >= MinPasswordLength)
    ensures f.name == "" || f.email == "" || f.password == "" ==> err == AllFieldsRequired
    ensures f.name != "" && f.email != "" && f.password != "" && !EmailPattern(f.email) ==> err == InvalidEmail
    ensures err == PasswordTooShort ==> EmailPattern(f.email) && |f.password| < MinPasswordLength
    ensures (f.name != "" && f.email != "" && f.password != "" && EmailPattern(f.email)
             && |f.password| < MinPasswordLength) ==> err == PasswordTooShort
  {
    if f.name == "" || f.email == "" || f.password == "" then AllFieldsRequired
    else if !IsValidEmail(f.email) then InvalidEmail
    else if |f.password| < MinPasswordLength then PasswordTooShort
    else ""
  }

  /** A bad email is reported even when the password is also too short. */
  lemma EmailCheckedBeforePassword(f: Form)
    requires f.name != "" && f.email != "" && f.password != ""
    requires !EmailPattern(f.email) && |f.password| < MinPasswordLength
    ensures Validate(f) == InvalidEmail
  {
  }

  /** Where a registered user is sent. */
  function HomeFor(role: string): (path: string)
    ensures path == "/dashboard" <==> role == "admin"
    ensures path != "/dashboard" ==> path == "/student-dashboard"
  {
    if role == "admin" then "/dashboard" else "/student-dashboard"
  }

  /** What the server answers to a registration: a token (empty when
      refused), the registered role and an optional message. */
  datatype ServerReply = ServerReply(token: string, role: string, message: string)

  datatype Outcome =
    | ShowError(error: string)
    | Registered(path: string)

  /** `handleSubmit`, with the registration call as a parameter. */
  function HandleSubmit(f: Form, register: Form -> ServerReply): (o: Outcome)
    ensures Validate(f) != "" ==> o == ShowError(Validate(f))
    ensures o.Registered? <==> Validate(f) == "" && register(f).token != ""
    ensures o.Registered? ==> o.path == HomeFor(register(f).role)
    ensures Validate(f) == "" && register(f).token == "" ==>
      o == ShowError(if register(f).message != "" then register(f).message else "Registration failed")
  {
    var err := Validate(f);
    if err != "" then ShowError(err)
    else
      var reply := register(f);
      if reply.token != "" then Registered(HomeFor(reply.role))
      else ShowError(if reply.message != "" then reply.message else "Registration failed")
  }

  /** An invalid form never reaches the server: the outcome is the same
      whatever the server would have answered. */
  lemma InvalidFormNotSent(f: Form, r1: Form -> ServerReply, r2: Form -> ServerReply)
    requires Validate(f) != ""
    ensures HandleSubmit(f, r1) == HandleSubmit(f, r2)
  {
  }

  /** A fresh form is refused until it is filled in. */
  lemma InitialFormRefused()
    ensures Validate(InitialForm) == AllFieldsRequired
    ensures InitialForm.role == "student"
  {
  }
}
