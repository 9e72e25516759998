/** The account life cycle of the auth service: registration, login, email
    verification and password reset, as transitions of the user record.
    bcrypt, the random token generator, the clock, JWT signing and email
    delivery are outside the model: their results are parameters. */
module Auth {
  import opened Wrappers
  import opened UserRecords
  import opened AuthUtils

  /** Lifetimes of the verification and reset tokens, in milliseconds. */
  const DayMs: int := 24 * 60 * 60 * 1000
  const HourMs: int := 60 * 60 * 1000

  const BannedMessage := "Your account has been banned. Please contact support."
  const NotVerifiedMessage := "Your account is not verified. Please check your email to verify your account. A new verification email has been sent."
  const VerifyFirstMessage := "Please verify your email before resetting password"
  const ResetSentMessage := "If the email exists, a password reset link has been sent."
  const VerificationSentMessage := "If the email exists, a verification email has been sent."

  /** `UserDto` as `register` receives it; `None` is an absent property. */
  datatype RegisterRequest = RegisterRequest(
    username: Option<string>,
    firstname: Option<string>,
    lastname: Option<string>,
    email: Option<string>,
    password: Option<string>,
    role: Option<Role>,
    status: Option<Status>)

  /** `LoginDto`: the frontend sends `identifier`, older clients `email`. */
  datatype LoginRequest = LoginRequest(identifier: Option<string>, email: Option<string>, password: Option<string>)

  /** The payload handed to `JwtService.sign`. */
  datatype Claims = Claims(email: string, id: Id, role: Role, username: string, firstname: string, lastname: string)

  /** A successful login: message, the user without password, the token claims. */
  datatype Session = Session(message: string, user: PublicUser, claims: Claims)

  /** The outer `catch` of `forgotPassword`, `resetPassword` and
      `verifyEmail`: a BadRequest passes through, anything else becomes a
      BadRequest with the method's fallback message. */
  function AsBadRequest(e: Error, fallback: string): (r: Error)
    ensures r.BadRequest?
    ensures e.BadRequest? ==> r == e
    ensures !e.BadRequest? ==> r.message == fallback
  {
    if e.BadRequest? then e else BadRequest(fallback)
  }

  /** The message of the first required `register` field that is missing or
      empty, in the order the service checks them. */
  function MissingField(req: RegisterRequest): (r: Option<string>)
    ensures r.None? <==>
      Truthy(req.username) && Truthy(req.firstname) && Truthy(req.lastname) &&
      Truthy(req.email) && Truthy(req.password)
    ensures !Truthy(req.username) ==> r == Some("Username is required")
    ensures Truthy(req.username) && !Truthy(req.firstname) ==> r == Some("Firstname is required")
  {
    if !Truthy(req.username) then Some("Username is required")
    else if !Truthy(req.firstname) then Some("Firstname is required")
    else if !Truthy(req.lastname) then Some("Lastname is required")
    else if !Truthy(req.email) then Some("Email is required")
    else if !Truthy(req.password) then Some("Password is required")
    else None
  }

  /** The account `register` creates: unverified, role and status defaulted,
      a verification token valid for a day, no reset token. */
  function NewAccount(req: RegisterRequest, hashed: string, token: string, now: int): (u: User)
    requires MissingField(req).None?
    ensures u.username == req.username.value && u.email == req.email.value
    ensures u.firstname == req.firstname.value && u.lastname == req.lastname.value
    ensures u.password == hashed && !u.isVerified
    ensures u.role == req.role.GetOr(Role.User) && u.status == req.status.GetOr(Active)
    ensures u.verificationToken == Some(token) && u.verificationTokenExpires == Some(now + DayMs)
    ensures u.resetToken.None? && TokensPaired(u)
  {
    UserRecords.User.User(req.username.value, req.firstname.value, req.lastname.value, req.email.value, hashed, false,
         req.role.GetOr(Role.User), req.status.GetOr(Active), Some(token), Some(now + DayMs), None, None)
  }

  /** `loginDto.identifier || loginDto.email` */
  function LoginIdentifier(req: LoginRequest): (r: Option<string>)
    ensures Truthy(req.identifier) ==> r == req.identifier
    ensures !Truthy(req.identifier) ==> r == req.email
  {
    if Truthy(req.identifier) then req.identifier else req.email
  }

  /** Login looks a user up by email when the identifier reads as an email
      address, by username otherwise. */
  function LoginColumn(identifier: string): (c: Column)
    ensures c == Email <==> MatchesEmailPattern(identifier)
    ensures c == Email || c == Username
  {
    if ValidateEmail(Some(identifier)) then Email else Username
  }

  /** `!expires || expires < new Date()` */
  predicate Expired(expires: Option<int>, now: int) {
    expires.None? || expires.value < now
  }

  /** A fresh verification token, valid for a day; nothing else changes. */
  function WithVerificationToken(u: User, token: string, now: int): (v: User)
    ensures v.verificationToken == Some(token) && v.verificationTokenExpires == Some(now + DayMs)
    ensures v == u.(verificationToken := v.verificationToken, verificationTokenExpires := v.verificationTokenExpires)
    ensures TokensPaired(u) ==> TokensPaired(v)
  {
    u.(verificationToken := Some(token), verificationTokenExpires := Some(now + DayMs))
  }

  /** A fresh reset token, valid for an hour; nothing else changes. */
  function WithResetToken(u: User, token: string, now: int): (v: User)
    ensures v.resetToken == Some(token) && v.resetTokenExpires == Some(now + HourMs)
    ensures v == u.(resetToken := v.resetToken, resetTokenExpires := v.resetTokenExpires)
    ensures TokensPaired(u) ==> TokensPaired(v)
  {
    u.(resetToken := Some(token), resetTokenExpires := Some(now + HourMs))
  }

  /** Both verification fields nulled. */
  function WithoutVerificationToken(u: User): (v: User)
    ensures v.verificationToken.None? && v.verificationTokenExpires.None?
    ensures v == u.(verificationToken := None, verificationTokenExpires := None)
    ensures TokensPaired(u) ==> TokensPaired(v)
  {
    u.(verificationToken := None, verificationTokenExpires := None)
  }

  /** Both reset fields nulled. */
  function WithoutResetToken(u: User): (v: User)
    ensures v.resetToken.None? && v.resetTokenExpires.None?
    ensures v == u.(resetToken := None, resetTokenExpires := None)
    ensures TokensPaired(u) ==> TokensPaired(v)
  {
    u.(resetToken := None, resetTokenExpires := None)
  }

  /** The claims signed into the access token. */
  function ClaimsOf(id: Id, u: User): (c: Claims)
    ensures c.id == id && c.email == u.email && c.role == u.role && c.username == u.username
    ensures c.firstname == u.firstname && c.lastname == u.lastname
  {
    Claims(u.email, id, u.role, u.username, u.firstname, u.lastname)
  }

  /** The table constraints the auth flows maintain. */
  ghost predicate Consistent(users: map<Id, User>) {
    Unique(users) && forall id :: id in users ==> TokensPaired(users[id])
  }

  /** Rewriting a row's tokens, password or flags keeps the table consistent. */
  lemma StoreKeepsConsistent(users: map<Id, User>, id: Id, v: User)
    requires Consistent(users) && id in users && TokensPaired(v)
    requires v.email == users[id].email && v.username == users[id].username
    ensures Consistent(users[id := v])
  {
    StoreKeepsUnique(users, id, v);
  }

  class AuthService {
    var users: map<Id, User>
    /** `bcrypt.compare(plain, hash)` */
    const compare: (string, string) -> bool

    ghost predicate Valid()
      reads this
    {
      Consistent(users)
    }

    constructor (users: map<Id, User>, compare: (string, string) -> bool)
      requires Consistent(users)
      ensures Valid() && this.users == users && this.compare == compare
    {
      this.users := users;
      this.compare := compare;
    }

    /** Whether some user has `value` in `column`. */
    ghost predicate Taken(column: Column, value: string)
      reads this
    {
      exists id :: id in users && Matches(users[id], column, value)
    }

    /** `register(dto)`, with `hashed` the bcrypt hash of the password and
        `token` the random verification token. */
    method Register(req: RegisterRequest, hashed: string, token: string, now: int) returns (r: Result<Id>)
      requires Valid()
      modifies this`users
      ensures Valid()
      ensures r.Err? ==> users == old(users) && r.error.BadRequest?
      ensures MissingField(req).Some? ==> r == Err(BadRequest(MissingField(req).value))
      ensures MissingField(req).None? && old(Taken(Email, req.email.value)) ==>
        r == Err(BadRequest("Email already exists"))
      ensures MissingField(req).None? && !old(Taken(Email, req.email.value)) && old(Taken(Username, req.username.value)) ==>
        r == Err(BadRequest("Username already exists"))
      ensures r.Ok? <==>
        MissingField(req).None? && !old(Taken(Email, req.email.value)) && !old(Taken(Username, req.username.value))
      ensures r.Ok? ==> r.value !in old(users) && users == old(users)[r.value := NewAccount(req, hashed, token, now)]
    {
      var missing := MissingField(req);
      if missing.Some? {
        return Err(BadRequest(missing.value));
      }
      var byEmail := FindBy(users, Email, req.email.value);
      if byEmail.Some? {
        return Err(BadRequest("Email already exists"));
      }
      var byUsername := FindBy(users, Username, req.username.value);
      if byUsername.Some? {
        return Err(BadRequest("Username already exists"));
      }
      FreshKeyExists(users.Keys);
      var id :| id !in users;
      InsertKeepsUnique(users, id, NewAccount(req, hashed, token, now));
      users := users[id := NewAccount(req, hashed, token, now)];
      return Ok(id);
    }

    /** `login(dto)`. `who` is the user the lookup found, if any; an
        unverified user is sent a fresh verification `token`. */
    method Login(req: LoginRequest, token: string, now: int) returns (r: Result<Session>, ghost who: Option<Id>)
      requires Valid()
      modifies this`users
      ensures Valid()
      ensures !Truthy(LoginIdentifier(req)) ==>
        r == Err(BadRequest("Email or username must be provided.")) && users == old(users)
      ensures Truthy(LoginIdentifier(req)) && !Truthy(req.password) ==>
        r == Err(BadRequest("Password must be provided.")) && users == old(users)
      ensures who.Some? ==>
        && Truthy(LoginIdentifier(req)) && Truthy(req.password) && who.value in old(users)
        && Matches(old(users)[who.value], LoginColumn(LoginIdentifier(req).value), LoginIdentifier(req).value)
      ensures Truthy(LoginIdentifier(req)) && Truthy(req.password) && who.None? ==>
        && r == Err(NotFound("User not found")) && users == old(users)
        && forall id :: id in old(users) ==>
             !Matches(old(users)[id], LoginColumn(LoginIdentifier(req).value), LoginIdentifier(req).value)
      ensures who.Some? && old(users)[who.value].status == Banned ==>
        r == Err(Unauthorized(BannedMessage)) && users == old(users)
      ensures who.Some? && old(users)[who.value].status == Active && !old(users)[who.value].isVerified ==>
        && r == Err(Unauthorized(NotVerifiedMessage))
        && users == old(users)[who.value := WithVerificationToken(old(users)[who.value], token, now)]
      ensures who.Some? && old(users)[who.value].status == Active && old(users)[who.value].isVerified ==>
        users == old(users) &&
        if compare(req.password.value, old(users)[who.value].password) then
          r == Ok(Session("User Logged in successfully", WithoutPassword(users[who.value]), ClaimsOf(who.value, users[who.value])))
        else
          r == Err(Unauthorized("Invalid email/username or password"))
      ensures r.Ok? ==>
        && who.Some? && users == old(users)
        && users[who.value].status == Active && users[who.value].isVerified
        && compare(req.password.value, users[who.value].password)
    {
      who := None;
      var identifier := LoginIdentifier(req);
      if !Truthy(identifier) {
        return Err(BadRequest("Email or username must be provided.")), who;
      }
      if !Truthy(req.password) {
        return Err(BadRequest("Password must be provided.")), who;
      }
      var found := FindBy(users, LoginColumn(identifier.value), identifier.value);
      if found.None? {
        return Err(NotFound("User not found")), who;
      }
      var id := found.value;
      who := found;
      var user := users[id];
      if user.status == Banned {
        return Err(Unauthorized(BannedMessage)), who;
      }
      if !user.isVerified {
        user := user.(verificationToken := Some(token));
        user := user.(verificationTokenExpires := Some(now + DayMs));
        assert user == WithVerificationToken(users[id], token, now);
        StoreKeepsConsistent(users, id, user);
        users := users[id := user];
        return Err(Unauthorized(NotVerifiedMessage)), who;
      }
      if !compare(req.password.value, user.password) {
        return Err(Unauthorized("Invalid email/username or password")), who;
      }
      return Ok(Session("User Logged in successfully", WithoutPassword(user), ClaimsOf(id, user))), who;
    }

    /** `forgotPassword(dto)`: a verified, active user gets a reset `token`
        valid for an hour. `mailSent` is whether the reset email went out;
        a failure is reported after the token is stored. */
    method ForgotPassword(email: Option<string>, token: string, now: int, mailSent: bool)
      returns (r: Result<string>, ghost who: Option<Id>)
      requires Valid()
      modifies this`users
      ensures Valid()
      ensures r.Err? ==> r.error.BadRequest?
      ensures !Truthy(email) ==> r == Err(BadRequest("Email is required")) && users == old(users)
      ensures Truthy(email) && !ValidateEmail(email) ==>
        r == Err(BadRequest("Please provide a valid email address.")) && users == old(users)
      ensures who.Some? ==>
        ValidateEmail(email) && who.value in old(users) && old(users)[who.value].email == email.value
      ensures ValidateEmail(email) && who.None? ==>
        && r == Ok(ResetSentMessage) && users == old(users)
        && forall id :: id in old(users) ==> old(users)[id].email != email.value
      ensures who.Some? && (old(users)[who.value].status == Banned || !old(users)[who.value].isVerified) ==>
        r == Err(BadRequest("Failed to process password reset request.")) && users == old(users)
      ensures who.Some? && old(users)[who.value].status == Active && old(users)[who.value].isVerified ==>
        && users == old(users)[who.value := WithResetToken(old(users)[who.value], token, now)]
        && r == if mailSent then Ok(ResetSentMessage) else Err(BadRequest("Failed to process password reset request."))
    {
      who := None;
      if !Truthy(email) {
        return Err(BadRequest("Email is required")), who;
      }
      if !ValidateEmail(email) {
        return Err(BadRequest("Please provide a valid email address.")), who;
      }
      var found := FindBy(users, Email, email.value);
      if found.None? {
        return Ok(ResetSentMessage), who;
      }
      var id := found.value;
      who := found;
      var user := users[id];
      var failure: Option<Error> := None;
      if user.status == Banned {
        failure := Some(Unauthorized(BannedMessage));
      } else if !user.isVerified {
        failure := Some(Unauthorized(VerifyFirstMessage));
      } else {
        user := user.(resetToken := Some(token));
        user := user.(resetTokenExpires := Some(now + HourMs));
        assert user == WithResetToken(users[id], token, now);
        StoreKeepsConsistent(users, id, user);
        users := users[id := user];
        if !mailSent {
          failure := Some(Unauthorized("email delivery failed"));
        }
      }
      if failure.Some? {
        return Err(AsBadRequest(failure.value, "Failed to process password reset request.")), who;
      }
      return Ok(ResetSentMessage), who;
    }

    /** `resetPassword(dto)`, with `hashed` the bcrypt hash of the new
        password. */
    method ResetPassword(token: Option<string>, password: Option<string>, hashed: string, now: int)
      returns (r: Result<string>, ghost who: Option<Id>)
      requires Valid()
      modifies this`users
      ensures Valid()
      ensures r.Err? ==> r.error.BadRequest?
      ensures !Truthy(token) ==> r == Err(BadRequest("Reset token is required")) && users == old(users)
      ensures Truthy(token) && !Truthy(password) ==>
        r == Err(BadRequest("New password is required")) && users == old(users)
      ensures who.Some? ==>
        Truthy(token) && Truthy(password) && who.value in old(users) && old(users)[who.value].resetToken == token
      ensures Truthy(token) && Truthy(password) && who.None? ==>
        && r == Err(BadRequest("Invalid or expired reset token")) && users == old(users)
        && forall id :: id in old(users) ==> old(users)[id].resetToken != token
      ensures who.Some? && (old(users)[who.value].status == Banned || !old(users)[who.value].isVerified) ==>
        r == Err(BadRequest("Failed to reset password.")) && users == old(users)
      ensures who.Some? && old(users)[who.value].status == Active && old(users)[who.value].isVerified ==>
        if Expired(old(users)[who.value].resetTokenExpires, now) then
          && r == Err(BadRequest("Reset token has expired. Please request a new one."))
          && users == old(users)[who.value := WithoutResetToken(old(users)[who.value])]
        else
          && r == Ok("Password has been reset successfully")
          && users == old(users)[who.value := WithoutResetToken(old(users)[who.value]).(password := hashed)]
      ensures r.Ok? ==>
        && who.Some? && old(users)[who.value].status == Active && old(users)[who.value].isVerified
        && !Expired(old(users)[who.value].resetTokenExpires, now)
        && users[who.value].password == hashed && users[who.value].resetToken.None?
    {
      who := None;
      if !Truthy(token) {
        return Err(BadRequest("Reset token is required")), who;
      }
      if !Truthy(password) {
        return Err(BadRequest("New password is required")), who;
      }
      var found := FindBy(users, ResetToken, token.value);
      if found.None? {
        return Err(BadRequest("Invalid or expired reset token")), who;
      }
      var id := found.value;
      who := found;
      var user := users[id];
      if user.status == Banned {
        return Err(AsBadRequest(Unauthorized(BannedMessage), "Failed to reset password.")), who;
      }
      if !user.isVerified {
        return Err(AsBadRequest(Unauthorized(VerifyFirstMessage), "Failed to reset password.")), who;
      }
      if Expired(user.resetTokenExpires, now) {
        user := user.(resetToken := None);
        user := user.(resetTokenExpires := None);
        assert user == WithoutResetToken(users[id]);
        StoreKeepsConsistent(users, id, user);
        users := users[id := user];
        return Err(BadRequest("Reset token has expired. Please request a new one.")), who;
      }
      user := user.(password := hashed);
      user := user.(resetToken := None);
      user := user.(resetTokenExpires := None);
      assert user == WithoutResetToken(users[id]).(password := hashed);
      StoreKeepsConsistent(users, id, user);
      users := users[id := user];
      return Ok("Password has been reset successfully"), who;
    }

    /** `verifyEmail(dto)` */
    method VerifyEmail(token: Option<string>, now: int) returns (r: Result<string>, ghost who: Option<Id>)
      requires Valid()
      modifies this`users
      ensures Valid()
      ensures r.Err? ==> r.error.BadRequest?
      ensures !Truthy(token) ==> r == Err(BadRequest("Verification token is required")) && users == old(users)
      ensures who.Some? ==>
        Truthy(token) && who.value in old(users) && old(users)[who.value].verificationToken == token
      ensures Truthy(token) && who.None? ==>
        && r == Err(BadRequest("Invalid or expired verification token")) && users == old(users)
        && forall id :: id in old(users) ==> old(users)[id].verificationToken != token
      ensures who.Some? && old(users)[who.value].isVerified ==>
        r == Ok("Email is already verified") && users == old(users)
      ensures who.Some? && !old(users)[who.value].isVerified ==>
        if Expired(old(users)[who.value].verificationTokenExpires, now) then
          && r == Err(BadRequest("Verification token has expired. Please register again or request a new verification email."))
          && users == old(users)[who.value := WithoutVerificationToken(old(users)[who.value])]
        else
          && r == Ok("Email verified successfully")
          && users == old(users)[who.value := WithoutVerificationToken(old(users)[who.value]).(isVerified := true)]
    {
      who := None;
      if !Truthy(token) {
        return Err(BadRequest("Verification token is required")), who;
      }
      var found := FindBy(users, VerificationToken, token.value);
      if found.None? {
        return Err(BadRequest("Invalid or expired verification token")), who;
      }
      var id := found.value;
      who := found;
      var user := users[id];
      if user.isVerified {
        return Ok("Email is already verified"), who;
      }
      if Expired(user.verificationTokenExpires, now) {
        user := user.(verificationToken := None);
        user := user.(verificationTokenExpires := None);
        assert user == WithoutVerificationToken(users[id]);
        StoreKeepsConsistent(users, id, user);
        users := users[id := user];
        return Err(BadRequest("Verification token has expired. Please register again or request a new verification email.")), who;
      }
      user := user.(isVerified := true);
      user := user.(verificationToken := None);
      user := user.(verificationTokenExpires := None);
      assert user == WithoutVerificationToken(users[id]).(isVerified := true);
      StoreKeepsConsistent(users, id, user);
      users := users[id := user];
      return Ok("Email verified successfully"), who;
    }

    /** `resendVerification(dto)`: an unverified, active user gets a fresh
        verification `token`; `mailSent` is whether the email went out. */
    method ResendVerification(email: Option<string>, token: string, now: int, mailSent: bool)
      returns (r: Result<string>, ghost who: Option<Id>)
      requires Valid()
      modifies this`users
      ensures Valid()
      ensures !Truthy(email) ==> r == Err(BadRequest("Email is required")) && users == old(users)
      ensures Truthy(email) && !ValidateEmail(email) ==>
        r == Err(BadRequest("Please provide a valid email address.")) && users == old(users)
      ensures who.Some? ==>
        ValidateEmail(email) && who.value in old(users) && old(users)[who.value].email == email.value
      ensures ValidateEmail(email) && who.None? ==>
        && r == Ok(VerificationSentMessage) && users == old(users)
        && forall id :: id in old(users) ==> old(users)[id].email != email.value
      ensures who.Some? && old(users)[who.value].isVerified ==>
        r == Ok("Email is already verified. You can log in now.") && users == old(users)
      ensures who.Some? && !old(users)[who.value].isVerified && old(users)[who.value].status == Banned ==>
        r == Err(Unauthorized(BannedMessage)) && users == old(users)
      ensures who.Some? && !old(users)[who.value].isVerified && old(users)[who.value].status == Active ==>
        && users == old(users)[who.value := WithVerificationToken(old(users)[who.value], token, now)]
        && r == if mailSent then Ok(VerificationSentMessage)
                else Err(BadRequest("Failed to send verification email. Please try again later."))
    {
      who := None;
      if !Truthy(email) {
        return Err(BadRequest("Email is required")), who;
      }
      if !ValidateEmail(email) {
        return Err(BadRequest("Please provide a valid email address.")), who;
      }
      var found := FindBy(users, Email, email.value);
      if found.None? {
        return Ok(VerificationSentMessage), who;
      }
      var id := found.value;
      who := found;
      var user := users[id];
      if user.isVerified {
        return Ok("Email is already verified. You can log in now."), who;
      }
      if user.status == Banned {
        return Err(Unauthorized(BannedMessage)), who;
      }
      user := user.(verificationToken := Some(token));
      user := user.(verificationTokenExpires := Some(now + DayMs));
      assert user == WithVerificationToken(users[id], token, now);
      StoreKeepsConsistent(users, id, user);
      users := users[id := user];
      if !mailSent {
        return Err(BadRequest("Failed to send verification email. Please try again later.")), who;
      }
      return Ok(VerificationSentMessage), who;
    }
  }
}
