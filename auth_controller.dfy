/** `AuthController`: the `/api/auth` endpoints `signup`, `verify-otp` and `login` over
    the users table and the OTP table. Password hashing (`PasswordEncoder.encode`) is the
    function `encode`; the outcome of `AuthenticationManager.authenticate` and the token
    of `JwtTokenProvider.generateToken` (`None` when it throws) are parameters of
    `AuthenticateUser`. */
module AuthController {
  import opened Options
  import opened OtpRepository
  import opened OtpService
  import SignupRequest

  /** A row of the users table: the address and the encoded password. */
  datatype User = User(email: string, password: string)

  /** `UserRepository`: the users table. */
  class UserRepository {
    var users: seq<User>

    constructor (rows: seq<User>)
      ensures users == rows
    {
      users := rows;
    }

    /** `existsByEmail`. */
    predicate ExistsByEmail(email: string)
      reads this
    {
      exists i :: 0 <= i < |users| && users[i].email == email
    }

    /** `save` of a new entity: one more row. */
    method Save(user: User)
      modifies this
      ensures users == old(users) + [user]
      ensures ExistsByEmail(user.email)
    {
      users := users + [user];
      assert users[|users| - 1] == user;
    }
  }

  /** A verification mail: its recipient and the code it carries. */
  datatype Mail = VerificationMail(to: string, otp: string)

  /** `EmailService`: `sent` is the sequence of mails handed to the mail sender. */
  class EmailService {
    var sent: seq<Mail>

    constructor ()
      ensures sent == []
    {
      sent := [];
    }

    method SendVerificationEmail(to: string, otp: string)
      modifies this
      ensures sent == old(sent) + [VerificationMail(to, otp)]
    {
      sent := sent + [VerificationMail(to, otp)];
    }
  }

  /** `JwtResponse`: the token, its type and the address. */
  datatype JwtResponse = JwtResponse(token: string, tokenType: string, email: string)

  /** The two-argument constructor `JwtResponse(token, email)`: the type keeps its
      initializer `"Bearer"`. */
  function NewJwtResponse(token: string, email: string): (r: JwtResponse)
    ensures r.token == token && r.email == email && r.tokenType == "Bearer"
  {
    JwtResponse(token, "Bearer", email)
  }

  /** A response body: a message, a token response, or the framework's report of a
      request body that failed `@Valid`. */
  datatype Body = Message(text: string) | Jwt(jwt: JwtResponse) | ValidationErrors

  datatype Response = Response(status: int, body: Body)

  datatype VerifyOtpRequest = VerifyOtpRequest(email: string, otp: string, password: string)
  datatype LoginRequest = LoginRequest(email: string, password: string)

  /** What `AuthenticationManager.authenticate` does with the credentials: it accepts
      them, throws `BadCredentialsException`, or throws another exception. */
  datatype Authentication = Authenticated | BadCredentials | AuthenticationError

  class AuthController {
    const userRepository: UserRepository
    const emailService: EmailService
    const otpService: OtpService
    const encode: string -> string

    constructor (userRepository: UserRepository, emailService: EmailService,
                 otpService: OtpService, encode: string -> string)
      ensures this.userRepository == userRepository && this.emailService == emailService
      ensures this.otpService == otpService && this.encode == encode
    {
      this.userRepository := userRepository;
      this.emailService := emailService;
      this.otpService := otpService;
      this.encode := encode;
    }

    /** `POST /api/auth/signup`. An invalid body is answered 400 by the framework before
        the method runs; a known address gets 400; otherwise exactly one code is issued for
        the address, that same code is mailed to it, and the answer is 200. Sign-up never
        adds a user. */
    method RegisterUser(req: SignupRequest.SignupRequest, isWellFormedEmail: string -> bool,
                        now: int, draws: seq<nat>) returns (resp: Response)
      requires AreDigitDraws(draws)
      modifies otpService, emailService
      ensures userRepository.users == old(userRepository.users)
      ensures !SignupRequest.IsValid(req, isWellFormedEmail) ==>
        resp == Response(400, ValidationErrors)
        && otpService.otps == old(otpService.otps) && emailService.sent == old(emailService.sent)
      ensures SignupRequest.IsValid(req, isWellFormedEmail) && userRepository.ExistsByEmail(req.email) ==>
        resp == Response(400, Message("Error: Email is already taken!"))
        && otpService.otps == old(otpService.otps) && emailService.sent == old(emailService.sent)
      ensures SignupRequest.IsValid(req, isWellFormedEmail) && !userRepository.ExistsByEmail(req.email) ==>
        resp == Response(200, Message("Verification code sent to your email"))
        && otpService.otps == Issued(old(otpService.otps), req.email, CodeOf(draws), now)
        && emailService.sent == old(emailService.sent) + [VerificationMail(req.email, CodeOf(draws))]
    {
      if !SignupRequest.IsValid(req, isWellFormedEmail) {
        return Response(400, ValidationErrors);
      }
      if userRepository.ExistsByEmail(req.email) {
        return Response(400, Message("Error: Email is already taken!"));
      }
      var otp := otpService.GenerateAndSaveOtp(req.email, now, draws);
      emailService.SendVerificationEmail(req.email, otp);
      return Response(200, Message("Verification code sent to your email"));
    }

    /** `POST /api/auth/verify-otp`. A code that is not valid for the address at `now`
        (wrong, expired or used) gets 400 and no user; a valid one is consumed and a user
        with that address and the encoded password is saved, without checking whether the
        address is already registered, and the answer is 200. */
    method VerifyOtp(req: VerifyOtpRequest, now: int) returns (resp: Response)
      modifies otpService, userRepository
      ensures (resp.status == 200, otpService.otps) == Verified(old(otpService.otps), req.email, req.otp, now)
      ensures resp.status == 200 ==>
        resp.body == Message("User registered successfully!")
        && userRepository.users == old(userRepository.users) + [User(req.email, encode(req.password))]
      ensures resp.status != 200 ==>
        resp == Response(400, Message("Invalid or expired verification code"))
        && userRepository.users == old(userRepository.users)
    {
      var ok := otpService.VerifyOtp(req.email, req.otp, now);
      if !ok {
        return Response(400, Message("Invalid or expired verification code"));
      }
      var user := User(req.email, encode(req.password));
      userRepository.Save(user);
      return Response(200, Message("User registered successfully!"));
    }

    /** `POST /api/auth/login`. An unknown address gets 404 and the credentials are never
        checked (`attempted` is false); otherwise rejected credentials give 401, another
        authentication failure or a token provider that throws gives 500, and success 200
        with a Bearer token response for the request's address. */
    method AuthenticateUser(req: LoginRequest, authentication: Authentication, token: Option<string>)
      returns (resp: Response, attempted: bool)
      ensures attempted <==> userRepository.ExistsByEmail(req.email)
      ensures resp.status == 404 <==> !userRepository.ExistsByEmail(req.email)
      ensures resp.status == 404 ==> resp.body == Message("Email not found")
      ensures attempted && authentication == BadCredentials ==> resp == Response(401, Message("Incorrect password"))
      ensures attempted && authentication == AuthenticationError ==>
        resp == Response(500, Message("An error occurred during login"))
      ensures attempted && authentication == Authenticated && token.None? ==>
        resp == Response(500, Message("An error occurred during login"))
      ensures attempted && authentication == Authenticated && token.Some? ==>
        resp.status == 200 && resp.body.Jwt? && resp.body.jwt.email == req.email
        && resp.body.jwt.token == token.value && resp.body.jwt.tokenType == "Bearer"
    {
      if !userRepository.ExistsByEmail(req.email) {
        return Response(404, Message("Email not found")), false;
      }
      attempted := true;
      match authentication {
        case Authenticated =>
          if token.None? {
            resp := Response(500, Message("An error occurred during login"));
          } else {
            resp := Response(200, Jwt(NewJwtResponse(token.value, req.email)));
          }
        case BadCredentials =>
          resp := Response(401, Message("Incorrect password"));
        case AuthenticationError =>
          resp := Response(500, Message("An error occurred during login"));
      }
    }
  }

  /** The sign-up lifecycle end to end: an unknown address signs up, receives the code
      by mail, and submitting that code before it expires registers the address. */
  method SignupThenVerify(controller: AuthController, req: SignupRequest.SignupRequest,
                          isWellFormedEmail: string -> bool, now: int, later: int,
                          draws: seq<nat>) returns (signup: Response, verify: Response)
    requires AreDigitDraws(draws)
    requires SignupRequest.IsValid(req, isWellFormedEmail)
    requires !controller.userRepository.ExistsByEmail(req.email)
    requires now <= later < PlusMinutes(now, OTP_EXPIRATION_MINUTES)
    modifies controller.otpService, controller.emailService, controller.userRepository
    ensures signup.status == 200 && verify.status == 200
    ensures controller.userRepository.ExistsByEmail(req.email)
  {
    signup := controller.RegisterUser(req, isWellFormedEmail, now, draws);
    var mail := controller.emailService.sent[|controller.emailService.sent| - 1];
    IssuedCodeVerifies(old(controller.otpService.otps), req.email, mail.otp, now, later);
    verify := controller.VerifyOtp(VerifyOtpRequest(req.email, mail.otp, req.password), later);
    var users := controller.userRepository.users;
    assert users[|users| - 1].email == req.email;
  }
}
