/**
 * Login, as app/controllers/api/v1/auth/sessions_controller.rb does it: look
 * the user up by the exact email, check the password against the stored
 * digest, and answer either the user with a fresh token or one fixed 401
 * entry that does not say which of the two checks failed.
 */
module SessionsController {
  import opened RubyCore
  import opened Exceptions
  import opened Users
  import opened JwtToken
  import opened JwtAuthenticatable
  import opened ApplicationController

  const InvalidCredentialsDetail: string := "Invalid email or password"

  /** The rendered login: the user's id and email, and the token. */
  datatype SessionBody = SessionBody(id: UserId, email: string, token: Jwt)

  /** The 401 of a failed login, written out by the action itself. */
  function InvalidCredentials(): (e: Envelope)
    ensures e.status == StatusUnauthorized && StatusesAgree(e)
    ensures Details(e.errors) == [InvalidCredentialsDetail]
    ensures e != AuthenticationError()
  {
    assert Decimal(401) == "401";
    assert InvalidCredentialsDetail != AuthenticationErrorDetail by {
      assert InvalidCredentialsDetail[8] != AuthenticationErrorDetail[8];
    }
    Envelope(StatusUnauthorized, [ErrorEntry("401", "Unauthorized", InvalidCredentialsDetail)])
  }

  /** `sessions#create` at time `now`. A nil password is hashed as the
      empty string. */
  function Login(users: seq<User>, h: Hasher, input: Option<UserInput>, secret: string, now: int)
    : (r: Response<SessionBody>)
    ensures r.Unhandled? <==> PermitUser(input).Raise?
    ensures r.Unhandled? ==> r.exception == ParameterMissing("user")
    ensures !r.Head?
    ensures r.Render? <==>
      && PermitUser(input).Ok?
      && FindByEmail(users, PermitUser(input).value.email).Some?
      && Authenticate(h, FindByEmail(users, PermitUser(input).value.email).value,
                      PermitUser(input).value.password.GetOr(""))
    ensures r.Render? ==>
      && r.status == StatusOk
      && r.body.email == PermitUser(input).value.email.value
      && (exists i :: 0 <= i < |users| && users[i].id == r.body.id && users[i].email == r.body.email)
      && r.body.token == Encode(r.body.id, now, secret)
    ensures r.Errors? ==> r.envelope == InvalidCredentials()
  {
    match PermitUser(input)
    case Raise(e) => Unhandled(e)
    case Ok(c) =>
      match FindByEmail(users, c.email)
      case None => Errors(InvalidCredentials())
      case Some(u) =>
        if Authenticate(h, u, c.password.GetOr("")) then
          Render(StatusOk, SessionBody(u.id, u.email, Encode(u.id, now, secret)))
        else Errors(InvalidCredentials())
  }

  /** An unknown email and a wrong password for a known one give the same
      response, so a failed login does not reveal which emails exist. */
  lemma UnknownEmailLikeWrongPassword(
    users: seq<User>, h: Hasher, unknown: UserInput, wrong: UserInput, secret: string, now: int)
    requires Flatten(unknown.email).Some?
    requires forall i :: 0 <= i < |users| ==> users[i].email != Flatten(unknown.email).value
    requires FindByEmail(users, Flatten(wrong.email)).Some?
    requires !Authenticate(h, FindByEmail(users, Flatten(wrong.email)).value, Flatten(wrong.password).GetOr(""))
    ensures Login(users, h, Some(unknown), secret, now) == Login(users, h, Some(wrong), secret, now)
    ensures Login(users, h, Some(unknown), secret, now) == Errors(InvalidCredentials())
  {
  }

  /** Only email and password are read from the `user` hash: other keys
      change nothing once the hash is present. */
  lemma LoginIgnoresOtherKeys(users: seq<User>, h: Hasher, input: UserInput, other: map<string, string>, secret: string, now: int)
    requires input.email.Some? || input.password.Some?
    ensures Login(users, h, Some(input), secret, now) == Login(users, h, Some(input.(other := other)), secret, now)
  {
  }

  /** A `user` hash whose email is sent as nil is not missing: it passes
      `require`, finds no user and gets the 401 entry. */
  lemma LoginNilEmail(users: seq<User>, h: Hasher, password: Option<Option<string>>, other: map<string, string>, secret: string, now: int)
    ensures Login(users, h, Some(UserInput(Some(None), password, other)), secret, now) == Errors(InvalidCredentials())
  {
  }

  /** With an injective hash, a user whose digest was made from `password`
      logs in with exactly that password, as the first user holding the email. */
  lemma LoginWithPassword(
    users: seq<User>, h: Hasher, email: string, attempt: string, original: string, salt: nat,
    other: map<string, string>, secret: string, now: int)
    requires InjectiveHasher(h)
    requires FindByEmail(users, Some(email)).Some?
    requires FindByEmail(users, Some(email)).value.passwordDigest == Digest(h, original, salt)
    ensures Login(users, h, Some(UserInput(Some(Some(email)), Some(Some(attempt)), other)), secret, now).Render?
      <==> attempt == original
  {
    AuthenticateOriginalOnly(h, FindByEmail(users, Some(email)).value, original, salt, attempt);
  }

  /** End to end: the token a successful login returns, presented as
      `Bearer <t>` before it expires, authenticates as the user who logged in. */
  lemma LoginThenAuthenticate(
    users: seq<User>, h: Hasher, input: UserInput, secret: string, issuedAt: int,
    t: string, parse: Parser, now: int)
    requires forall i, j :: 0 <= i < j < |users| ==> users[i].id != users[j].id
    requires Login(users, h, Some(input), secret, issuedAt).Render?
    requires t != [] && NoSpace(t) && !Blank(t)
    requires parse(t) == Some(Login(users, h, Some(input), secret, issuedAt).body.token)
    requires now < issuedAt + Lifetime
    ensures AuthenticateRequest(Some(BearerPrefix + t), parse, secret, now, users).Ok?
    ensures AuthenticateRequest(Some(BearerPrefix + t), parse, secret, now, users).value ==
      FindByEmail(users, Flatten(input.email)).value
  {
    var u := FindByEmail(users, Flatten(input.email)).value;
    AuthenticateIssuedToken(t, parse, u, issuedAt, secret, now, users);
  }
}
