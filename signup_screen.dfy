/** `SignUpScreen`: the sign-up form's validation and its submit handler. The sign-up
    call to the backend is recorded in `signupCalls`; whether it succeeds is a parameter. */
module SignUpScreen {
  import opened Options
  import opened Text
  import SignupRequest

  /** The five checks of `validateForm`, in the order they are made. */
  datatype FormError = EmailMissing | EmailInvalid | PasswordMissing | PasswordTooShort | PasswordMismatch

  /** The alert text of each check. */
  function ErrorMessage(e: FormError): string
  {
    match e
    case EmailMissing => "Please enter your email address."
    case EmailInvalid => "Please enter a valid email address."
    case PasswordMissing => "Please enter a password."
    case PasswordTooShort => "Password must be at least 8 characters long."
    case PasswordMismatch => "Passwords do not match."
  }

  /** Whether a check rejects the form. */
  predicate Fails(e: FormError, email: string, password: string, confirmPassword: string)
  {
    match e
    case EmailMissing => IsJsBlank(email)
    case EmailInvalid => '@' !in email || '.' !in email
    case PasswordMissing => IsJsBlank(password)
    case PasswordTooShort => |password| < 8
    case PasswordMismatch => password != confirmPassword
  }

  /** `validateForm`: `None` when the form passes, else the first check that fails.
      A blank address (only whitespace) is reported before a malformed one; an address
      passes the format check as soon as it contains an `@` and a `.` anywhere; the
      length check counts the untrimmed password. */
  function ValidateForm(email: string, password: string, confirmPassword: string): (r: Option<FormError>)
    ensures r.None? <==>
      && !AllBlank(email, IsJsWhitespace) && '@' in email && '.' in email
      && !AllBlank(password, IsJsWhitespace) && |password| >= 8 && password == confirmPassword
    ensures r == Some(EmailMissing) <==> AllBlank(email, IsJsWhitespace)
    ensures r == Some(EmailInvalid) <==> !AllBlank(email, IsJsWhitespace) && ('@' !in email || '.' !in email)
    ensures r == Some(PasswordMissing) <==>
      !Fails(EmailMissing, email, password, confirmPassword) && !Fails(EmailInvalid, email, password, confirmPassword)
      && AllBlank(password, IsJsWhitespace)
    ensures r == Some(PasswordTooShort) <==>
      !Fails(EmailMissing, email, password, confirmPassword) && !Fails(EmailInvalid, email, password, confirmPassword)
      && !AllBlank(password, IsJsWhitespace) && |password| < 8
    ensures r.Some? ==> Fails(r.value, email, password, confirmPassword)
  {
    if IsJsBlank(email) then Some(EmailMissing)
    else if '@' !in email || '.' !in email then Some(EmailInvalid)
    else if IsJsBlank(password) then Some(PasswordMissing)
    else if |password| < 8 then Some(PasswordTooShort)
    else if password != confirmPassword then Some(PasswordMismatch)
    else None
  }

  /** The client's checks are weaker than the server's `SignupRequest` constraints: a form
      the client accepts can still be refused by the server, here for a password longer
      than 100 characters, whatever the server's e-mail check says. */
  lemma ClientAcceptsWhatServerRefuses(isWellFormedEmail: string -> bool)
    ensures var email := "a@b.c";
      var password := Repeat('x', 101);
      ValidateForm(email, password, password).None?
      && !SignupRequest.IsValid(SignupRequest.SignupRequest(email, password), isWellFormedEmail)
  {
    var email := "a@b.c";
    var password := Repeat('x', 101);
    assert email[1] == '@' && email[3] == '.';
    assert !AllBlank(email, IsJsWhitespace) by { assert !IsJsWhitespace(email[0]); }
    assert !AllBlank(password, IsJsWhitespace) by { assert !IsJsWhitespace(password[0]); }
  }

  /** The server accepts passwords the client refuses as blank: eight no-break spaces are
      JavaScript whitespace but lie above U+0020, so Java's `trim` keeps them. */
  lemma ServerAcceptsWhatClientRefuses()
    ensures var password := Repeat('\U{00A0}', 8);
      ValidateForm("a@b.c", password, password) == Some(PasswordMissing)
      && SignupRequest.NotBlank(password) && 8 <= |password| <= 100
  {
    var email := "a@b.c";
    var password := Repeat('\U{00A0}', 8);
    assert email[1] == '@' && email[3] == '.';
    assert !AllBlank(email, IsJsWhitespace) by { assert !IsJsWhitespace(email[0]); }
    assert AllBlank(password, IsJsWhitespace);
    assert !AllBlank(password, IsJavaTrimmable) by { assert !IsJavaTrimmable(password[0]); }
  }

  /** The screen the handler navigates to, with its parameters. */
  datatype Route = Verification(email: string, password: string)

  class SignUpScreen {
    var email: string
    var password: string
    var confirmPassword: string
    var isLoading: bool
    /** The (email, password) pairs sent to `authService.signup`, oldest first. */
    var signupCalls: seq<(string, string)>
    var navigatedTo: Option<Route>

    constructor ()
      ensures email == "" && password == "" && confirmPassword == ""
      ensures !isLoading && signupCalls == [] && navigatedTo == None
    {
      email, password, confirmPassword := "", "", "";
      isLoading := false;
      signupCalls := [];
      navigatedTo := None;
    }

    /** `handleSignUp`: the service is called only when the form passes, with the
        entered address and password; on success the app moves to the verification
        screen with them; `isLoading` is false again once the call has settled. On a
        failing form the alert of the first failing check is returned and nothing
        changes. */
    method HandleSignUp(callSucceeds: bool) returns (alert: Option<string>)
      modifies this
      ensures email == old(email) && password == old(password) && confirmPassword == old(confirmPassword)
      ensures var check := ValidateForm(email, password, confirmPassword);
        check.Some? ==>
          (alert == Some(ErrorMessage(check.value)) && signupCalls == old(signupCalls)
           && navigatedTo == old(navigatedTo) && isLoading == old(isLoading))
      ensures ValidateForm(email, password, confirmPassword).None? ==>
        alert == None && signupCalls == old(signupCalls) + [(email, password)] && !isLoading
        && navigatedTo == if callSucceeds then Some(Verification(email, password)) else old(navigatedTo)
    {
      var check := ValidateForm(email, password, confirmPassword);
      if check.Some? {
        return Some(ErrorMessage(check.value));
      }
      isLoading := true;
      signupCalls := signupCalls + [(email, password)];
      if callSucceeds {
        navigatedTo := Some(Verification(email, password));
      }
      isLoading := false;
      return None;
    }
  }
}
