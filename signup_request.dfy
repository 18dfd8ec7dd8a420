/** `SignupRequest`: the body of `POST /api/auth/signup` and its bean-validation
    constraints. The `@Email` check is Hibernate Validator's; it is a parameter here. */
module SignupRequest {
  import opened Text

  datatype SignupRequest = SignupRequest(email: string, password: string)

  /** `@NotBlank`: not empty once `String.trim` has removed the code points up to U+0020. */
  predicate NotBlank(s: string)
  {
    Trim(s, IsJavaTrimmable) != []
  }

  /** `@NotBlank @Size(max = 50) @Email` on the address and
      `@NotBlank @Size(min = 8, max = 100)` on the password. */
  predicate IsValid(req: SignupRequest, isWellFormedEmail: string -> bool)
  {
    && NotBlank(req.email) && |req.email| <= 50 && isWellFormedEmail(req.email)
    && NotBlank(req.password) && 8 <= |req.password| <= 100
  }

  /** What a valid request guarantees about its fields: a non-empty address of at most 50
      characters with a character above U+0020 that the e-mail check accepts, and a
      password of 8 to 100 characters with a character above U+0020. */
  lemma ValidRequestFields(req: SignupRequest, isWellFormedEmail: string -> bool)
    ensures IsValid(req, isWellFormedEmail) <==>
      && 1 <= |req.email| <= 50 && isWellFormedEmail(req.email)
      && (exists k :: 0 <= k < |req.email| && req.email[k] as int > 0x20)
      && 8 <= |req.password| <= 100
      && (exists k :: 0 <= k < |req.password| && req.password[k] as int > 0x20)
  {
    assert NotBlank(req.email) <==> !AllBlank(req.email, IsJavaTrimmable);
    assert NotBlank(req.password) <==> !AllBlank(req.password, IsJavaTrimmable);
  }
}
