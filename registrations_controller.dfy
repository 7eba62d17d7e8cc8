/**
 * Sign-up, as app/controllers/api/v1/auth/registrations_controller.rb does
 * it: build a user from the permitted email and password, `save!` it (a
 * failed validation becomes the 422 envelope), and answer 201 with the new
 * user and a token for it.
 */
module RegistrationsController {
  import opened RubyCore
  import opened Exceptions
  import opened Users
  import opened JwtToken
  import opened ApplicationController
  import opened SessionsController

  /** The rendered registration: the new user's id, email and creation
      time, and the token. */
  datatype RegistrationBody = RegistrationBody(id: UserId, email: string, createdAt: int, token: Jwt)

  /** `registrations#create` at time `now`, bcrypt drawing `salt`. */
  method Create(table: UserTable, input: Option<UserInput>, h: Hasher, salt: nat, now: int,
                secret: string, emailFormat: string -> bool)
    returns (r: Response<RegistrationBody>)
    requires table.Valid()
    modifies table
    ensures table.Valid()
    ensures PermitUser(input).Raise? ==>
      r == Unhandled(ParameterMissing("user")) && table.rows == old(table.rows)
    ensures PermitUser(input).Ok? ==>
      var c := PermitUser(input).value;
      var errors := UserErrors(old(table.rows), emailFormat, c.email, c.password);
      && (errors != [] ==> r == Errors(ValidationError(errors)) && table.rows == old(table.rows))
      && (errors == [] ==>
            && r.Render? && r.status == StatusCreated
            && table.rows == old(table.rows) + [User(r.body.id, c.email.value, Digest(h, c.password.value, salt), now)]
            && !HasId(old(table.rows), r.body.id)
            && r.body == RegistrationBody(r.body.id, c.email.value, now, Encode(r.body.id, now, secret)))
  {
    match PermitUser(input)
    case Raise(e) =>
      r := Unhandled(e);
    case Ok(c) =>
      var saved := table.Save(c.email, c.password, h, salt, now, emailFormat);
      match saved
      case Raise(e) =>
        r := Rescue(e);
      case Ok(u) =>
        r := Render(StatusCreated, RegistrationBody(u.id, u.email, u.createdAt, Encode(u.id, now, secret)));
  }

  /** Once an email is registered, registering it again in any letter case
      fails with "Email has already been taken". */
  lemma SecondRegistrationTaken(
    rows: seq<User>, u: User, email: string, emailFormat: string -> bool, password: Option<string>)
    requires Downcase(email) == Downcase(u.email)
    ensures "Email has already been taken" in UserErrors(rows + [u], emailFormat, Some(email), password)
    ensures UserErrors(rows + [u], emailFormat, Some(email), password) != []
  {
    assert (rows + [u])[|rows|] == u;
    assert EmailTaken(rows + [u], email);
  }

  /** A user registered with `email` and `password` can log in with the
      same two, and the login answers the new user's id and email. */
  lemma RegisterThenLogin(
    rows: seq<User>, h: Hasher, email: string, password: string, salt: nat, id: UserId, createdAt: int,
    other: map<string, string>, secret: string, now: int)
    requires !EmailTaken(rows, email)
    ensures Login(rows + [User(id, email, Digest(h, password, salt), createdAt)], h,
                  Some(UserInput(Some(Some(email)), Some(Some(password)), other)), secret, now)
      == Render(StatusOk, SessionBody(id, email, Encode(id, now, secret)))
  {
    var u := User(id, email, Digest(h, password, salt), createdAt);
    var users := rows + [u];
    assert users[|rows|] == u;
    var found := FindByEmail(users, Some(email));
    assert found.Some?;
    var i :| 0 <= i < |users| && users[i] == found.value;
    if i < |rows| {
      assert false;
    }
  }
}
