/** The account-creation form of the client: field validation, the change
    handler, and what a submit sends and shows. */
module CreateAccount {
  import opened Common
  import Auth

  /** The five inputs of the form. */
  datatype Input = Name | EmployeeId | Email | Password | ConfirmPassword

  /** Keys of the error dictionary: one per input, plus the submit error. */
  datatype ErrorKey = InputError(field: Input) | SubmitError

  datatype FormData = FormData(name: string, employeeId: string, email: string, password: string, confirmPassword: string)

  /** `formData[f]`. */
  function Get(d: FormData, f: Input): string
  {
    match f
    case Name => d.name
    case EmployeeId => d.employeeId
    case Email => d.email
    case Password => d.password
    case ConfirmPassword => d.confirmPassword
  }

  /** `{ ...formData, [f]: v }`. */
  function Set(d: FormData, f: Input, v: string): (e: FormData)
    ensures Get(e, f) == v
    ensures forall g :: g != f ==> Get(e, g) == Get(d, g)
  {
    match f
    case Name => d.(name := v)
    case EmployeeId => d.(employeeId := v)
    case Email => d.(email := v)
    case Password => d.(password := v)
    case ConfirmPassword => d.(confirmPassword := v)
  }

  /** The component state: form data, error dictionary, loading flag. */
  datatype FormState = FormState(data: FormData, errors: map<ErrorKey, string>, loading: bool)

  const EmptyForm := FormData("", "", "", "", "")

  const NameRequired := "Name is required"
  const EmployeeIdRequired := "Employee ID is required"
  const EmailRequired := "Email is required"
  const EmailInvalid := "Email is invalid"
  const PasswordRequired := "Password is required"
  const PasswordTooShort := "Password must be at least 6 characters"
  const ConfirmRequired := "Please confirm your password"
  const PasswordsDiffer := "Passwords do not match"
  const RegistrationFailed := "Registration failed. Please try again."
  const ServerUnreachable := "Unable to connect to server. Please make sure the backend is running."

  /** The characters ECMAScript's `trim` removes and its `\s` matches:
      WhiteSpace (including Unicode space separators) and LineTerminator. */
  predicate IsSpace(c: char)
  {
    || c == '\t' || c == '\n' || c == '\U{000B}' || c == '\U{000C}' || c == '\r' || c == ' '
    || c == '\U{00A0}' || c == '\U{1680}' || ('\U{2000}' <= c <= '\U{200A}')
    || c == '\U{2028}' || c == '\U{2029}' || c == '\U{202F}' || c == '\U{205F}'
    || c == '\U{3000}' || c == '\U{FEFF}'
  }

  /** `trimStart`: drops leading space. */
  function TrimStart(s: string): string
  {
    if s != [] && IsSpace(s[0]) then TrimStart(s[1..]) else s
  }

  /** `trimEnd`: drops trailing space. */
  function TrimEnd(s: string): string
  {
    if s != [] && IsSpace(s[|s| - 1]) then TrimEnd(s[..|s| - 1]) else s
  }

  /** `String.prototype.trim`. */
  function Trim(s: string): string
  {
    TrimEnd(TrimStart(s))
  }

  /** What `TrimStart` removes is a prefix of spaces, and what it keeps
      starts with a non-space. */
  lemma {:induction false} TrimStartShape(s: string)
    ensures var t := TrimStart(s);
      && |t| <= |s| && t == s[|s| - |t|..]
      && (t != [] ==> !IsSpace(t[0]))
      && (forall i :: 0 <= i < |s| - |t| ==> IsSpace(s[i]))
  {
    if s != [] && IsSpace(s[0]) {
      var rest := s[1..];
      TrimStartShape(rest);
      var t := TrimStart(rest);
      assert TrimStart(s) == t;
      assert rest[|rest| - |t|..] == s[|s| - |t|..];
      forall i | 0 <= i < |s| - |t| ensures IsSpace(s[i]) {
        if i > 0 {
          assert s[i] == rest[i - 1];
        }
      }
    }
  }

  /** What `TrimEnd` removes is a suffix of spaces, and what it keeps ends
      with a non-space. */
  lemma {:induction false} TrimEndShape(s: string)
    ensures var t := TrimEnd(s);
      && |t| <= |s| && t == s[..|t|]
      && (t != [] ==> !IsSpace(t[|t| - 1]))
      && (forall i :: |t| <= i < |s| ==> IsSpace(s[i]))
  {
    if s != [] && IsSpace(s[|s| - 1]) {
      TrimEndShape(s[..|s| - 1]);
    }
  }

  /** A string is blank after trimming exactly when every character is space. */
  lemma TrimEmptyIffAllSpace(s: string)
    ensures Trim(s) == "" <==> forall i :: 0 <= i < |s| ==> IsSpace(s[i])
  {
    var t := TrimStart(s);
    TrimStartShape(s);
    TrimEndShape(t);
    if Trim(s) == "" {
      assert t == [];
    } else if |t| > 0 {
      assert !IsSpace(s[|s| - |t|]);
    }
  }

  /** `!value.trim()`. */
  predicate Blank(s: string)
  {
    Trim(s) == ""
  }

  /** `/\S+@\S+\.\S+/.test(s)`: some substring is a non-space run, `@`, a
      non-space run, `.`, and a non-space run. The search is unanchored. */
  predicate EmailShaped(s: string)
  {
    exists at, dot | 0 < at && at + 1 < dot && dot + 1 < |s| ::
      && s[at] == '@' && s[dot] == '.'
      && !IsSpace(s[at - 1]) && !IsSpace(s[dot + 1])
      && NoSpaceBetween(s, at, dot)
  }

  /** No space strictly between positions `lo` and `hi`. */
  predicate NoSpaceBetween(s: string, lo: nat, hi: nat)
    requires hi <= |s|
  {
    forall k | lo < k < hi :: !IsSpace(s[k])
  }

  /** A witness for the email pattern. */
  lemma EmailShapedAt(s: string, at: nat, dot: nat)
    requires 0 < at && at + 1 < dot && dot + 1 < |s|
    requires s[at] == '@' && s[dot] == '.' && !IsSpace(s[at - 1]) && !IsSpace(s[dot + 1])
    requires NoSpaceBetween(s, at, dot)
    ensures EmailShaped(s)
  {
  }

  /** A plain address matches the pattern. */
  lemma EmailShapedAccepts()
    ensures EmailShaped("a@b.c")
  {
    var plain := "a@b.c";
    assert NoSpaceBetween(plain, 1, 3) by { assert plain[2] == 'b'; }
    EmailShapedAt(plain, 1, 3);
  }

  /** The search is unanchored: an address inside other text matches. */
  lemma EmailShapedAcceptsInside()
    ensures EmailShaped("see: x@y.z")
  {
    var inside := "see: x@y.z";
    assert NoSpaceBetween(inside, 6, 8) by { assert inside[7] == 'y'; }
    EmailShapedAt(inside, 6, 8);
  }

  /** Strings the pattern rejects: no dot after the `@`, nothing before it,
      a space right before it. */
  lemma EmailShapedRejects()
    ensures !EmailShaped("a@b")
    ensures !EmailShaped("@b.c")
    ensures !EmailShaped("a @b.c")
  {
    var t := "@b.c";
    assert forall i | 0 < i < |t| :: t[i] != '@';
    var u := "a @b.c";
    assert forall i | 0 < i < |u| && u[i] == '@' :: i == 2 && IsSpace(u[i - 1]);
  }

  /** An email-shaped string is not blank, so at most one email error arises. */
  lemma EmailShapedIsNotBlank(s: string)
    requires EmailShaped(s)
    ensures !Blank(s)
  {
    var at, dot :| 0 < at && at + 1 < dot && dot + 1 < |s| && s[at] == '@' && s[dot] == '.' && NoSpaceBetween(s, at, dot);
    TrimEmptyIffAllSpace(s);
    assert !IsSpace(s[at]);
  }

  /** `String.prototype.length`: UTF-16 code units, two for a character
      outside the Basic Multilingual Plane. */
  function Utf16Length(s: string): nat
  {
    if s == [] then 0 else (if s[0] as int > 0xFFFF then 2 else 1) + Utf16Length(s[1..])
  }

  /** Each character is one or two code units. */
  lemma {:induction false} Utf16LengthBounds(s: string)
    ensures |s| <= Utf16Length(s) <= 2 * |s|
  {
    if s != [] {
      Utf16LengthBounds(s[1..]);
    }
  }

  /** Whether the whole form would pass `validateForm`. */
  predicate Acceptable(f: FormData)
  {
    && !Blank(f.name)
    && !Blank(f.employeeId)
    && !Blank(f.email) && EmailShaped(f.email)
    && f.password != "" && Utf16Length(f.password) >= 6
    && f.confirmPassword != "" && f.password == f.confirmPassword
  }

  /** The error dictionary `validateForm` sets for the form `f`: for each
      input, an entry exactly when its rule fails, holding that rule's
      message; no submit error. */
  predicate Reports(errors: map<ErrorKey, string>, f: FormData)
  {
    && SubmitError !in errors
    && (InputError(Name) in errors <==> Blank(f.name))
    && (InputError(Name) in errors ==> errors[InputError(Name)] == NameRequired)
    && (InputError(EmployeeId) in errors <==> Blank(f.employeeId))
    && (InputError(EmployeeId) in errors ==> errors[InputError(EmployeeId)] == EmployeeIdRequired)
    && (InputError(Email) in errors <==> Blank(f.email) || !EmailShaped(f.email))
    && (InputError(Email) in errors ==>
          errors[InputError(Email)] == if Blank(f.email) then EmailRequired else EmailInvalid)
    && (InputError(Password) in errors <==> f.password == "" || Utf16Length(f.password) < 6)
    && (InputError(Password) in errors ==>
          errors[InputError(Password)] == if f.password == "" then PasswordRequired else PasswordTooShort)
    && (InputError(ConfirmPassword) in errors <==> f.confirmPassword == "" || f.password != f.confirmPassword)
    && (InputError(ConfirmPassword) in errors ==>
          errors[InputError(ConfirmPassword)] == if f.confirmPassword == "" then ConfirmRequired else PasswordsDiffer)
  }

  /** `Reports` pins the dictionary down: a form has exactly one. */
  lemma ReportsDetermines(e1: map<ErrorKey, string>, e2: map<ErrorKey, string>, f: FormData)
    requires Reports(e1, f) && Reports(e2, f)
    ensures e1 == e2
  {
    forall k | k in e1 ensures k in e2 && e1[k] == e2[k] {
      assert k.InputError?;
      match k.field
      case Name =>
      case EmployeeId =>
      case Email =>
      case Password =>
      case ConfirmPassword =>
    }
    forall k | k in e2 ensures k in e1 {
      assert k.InputError?;
      match k.field
      case Name =>
      case EmployeeId =>
      case Email =>
      case Password =>
      case ConfirmPassword =>
    }
  }

  /** `validateForm`: builds the error dictionary one field after another and
      reports whether it stayed empty. */
  method ValidateForm(f: FormData) returns (errors: map<ErrorKey, string>, ok: bool)
    ensures Reports(errors, f)
    ensures ok <==> errors == map[]
    ensures ok <==> Acceptable(f)
  {
    errors := map[];
    if Blank(f.name) {
      errors := errors[InputError(Name) := NameRequired];
    }
    if Blank(f.employeeId) {
      errors := errors[InputError(EmployeeId) := EmployeeIdRequired];
    }
    if Blank(f.email) {
      errors := errors[InputError(Email) := EmailRequired];
    } else if !EmailShaped(f.email) {
      errors := errors[InputError(Email) := EmailInvalid];
    }
    if f.password == "" {
      errors := errors[InputError(Password) := PasswordRequired];
    } else if Utf16Length(f.password) < 6 {
      errors := errors[InputError(Password) := PasswordTooShort];
    }
    if f.confirmPassword == "" {
      errors := errors[InputError(ConfirmPassword) := ConfirmRequired];
    } else if f.password != f.confirmPassword {
      errors := errors[InputError(ConfirmPassword) := PasswordsDiffer];
    }
    ok := |errors| == 0;
  }

  /** `handleChange`: the named input takes the new value; that input's error,
      and no other, is cleared, and only when it was set. */
  function HandleChange(s: FormState, f: Input, value: string): (t: FormState)
    ensures Get(t.data, f) == value
    ensures forall g :: g != f ==> Get(t.data, g) == Get(s.data, g)
    ensures t.loading == s.loading
    ensures t.errors.Keys == s.errors.Keys
    ensures forall k :: k in s.errors && k != InputError(f) ==> t.errors[k] == s.errors[k]
    ensures InputError(f) in s.errors ==> t.errors[InputError(f)] == ""
  {
    var errors := if InputError(f) in s.errors && s.errors[InputError(f)] != ""
                  then s.errors[InputError(f) := ""] else s.errors;
    FormState(Set(s.data, f, value), errors, s.loading)
  }

  /** The JSON body of the registration request the form sends. */
  datatype RegisterRequest = RegisterRequest(
    username: string, employeeId: string, email: string, password: string, fullName: string, role: string)

  /** `handleSubmit` up to the request: validation sets the errors; only a
      valid form is sent, as an employee account whose username is the
      employee id. */
  method HandleSubmit(s: FormState) returns (t: FormState, request: Option<RegisterRequest>)
    ensures t.data == s.data
    ensures Reports(t.errors, s.data)
    ensures request.Some? <==> Acceptable(s.data)
    ensures request.Some? <==> t.errors == map[]
    ensures t.loading == (request.Some? || s.loading)
    ensures request.Some? ==> request.value == RegisterRequest(
      s.data.employeeId, s.data.employeeId, s.data.email, s.data.password, s.data.name, EMPLOYEE)
  {
    var errors, ok := ValidateForm(s.data);
    t := s.(errors := errors);
    request := None;
    if ok {
      t := t.(loading := true);
      request := Some(RegisterRequest(s.data.employeeId, s.data.employeeId, s.data.email,
                                      s.data.password, s.data.name, EMPLOYEE));
    }
  }

  /** A request built from an accepted form always passes the server's
      required-field check, and asks for the employee role. */
  lemma SentRequestHasRequiredFields(f: FormData)
    requires Acceptable(f)
    ensures Present(Some(f.employeeId)) && Present(Some(f.email))
    ensures Present(Some(f.password)) && Present(Some(f.name))
    ensures Auth.RoleOrDefault(Some(EMPLOYEE)) == EMPLOYEE
  {
    TrimEmptyIffAllSpace(f.employeeId);
    TrimEmptyIffAllSpace(f.name);
    TrimEmptyIffAllSpace(f.email);
  }

  /** What the server's reply looks like to the form: unreachable, or a status
      flag with the body's `success` and `message`. */
  datatype Reply = Unreachable | Reply(ok: bool, success: bool, message: Option<string>)

  /** The reply the registration handler gives. */
  function ReplyOf(r: Result<Auth.Session>): (reply: Reply)
    ensures r.Ok? <==> reply.Reply? && reply.ok && reply.success
    ensures r.Err? ==> reply.Reply? && reply.message == Some(r.error.message)
  {
    match r
    case Ok(_) => Reply(true, true, None)
    case Err(e) => Reply(false, false, Some(e.message))
  }

  /** The form state after a reply, and whether the account was created. */
  datatype Submitted = Submitted(state: FormState, created: bool)

  /** The rest of `handleSubmit`: a successful reply leaves the form for the
      login screen (`created`), any other reply shows one submit error. */
  function FinishSubmit(s: FormState, reply: Reply): (res: Submitted)
    ensures !res.state.loading && res.state.data == s.data
    ensures res.created <==> reply.Reply? && reply.ok && reply.success
    ensures res.created ==> res.state.errors == s.errors
    ensures !res.created ==> res.state.errors.Keys == {SubmitError}
    ensures reply.Unreachable? ==> res.state.errors[SubmitError] == ServerUnreachable
    ensures reply.Reply? && !res.created ==>
      res.state.errors[SubmitError] == if Present(reply.message) then reply.message.value else RegistrationFailed
  {
    match reply
    case Unreachable => Submitted(s.(errors := map[SubmitError := ServerUnreachable], loading := false), false)
    case Reply(ok, success, message) =>
      if ok && success then Submitted(s.(loading := false), true)
      else
        var msg := if Present(message) then message.value else RegistrationFailed;
        Submitted(s.(errors := map[SubmitError := msg], loading := false), false)
  }

  /** A rejected registration shows the server's message as the submit error. */
  lemma RejectionShowsServerMessage(s: FormState, e: Error)
    requires e.message != ""
    ensures var res := FinishSubmit(s, ReplyOf(Err(e)));
      !res.created && res.state.errors == map[SubmitError := e.message]
  {
  }
}
