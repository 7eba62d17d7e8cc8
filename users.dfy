/**
 * The user table as the controllers see it: `User.find`, `User.find_by(email:)`,
 * `has_secure_password`'s `authenticate`, the validations the user model's
 * tests state, and `save!` on a new user.
 *
 * bcrypt is a one-way salted hash supplied as the `Hasher` parameter; the
 * stored digest keeps the salt and the hash, never the password. The email
 * format check is the `emailFormat` parameter.
 */
module Users {
  import opened RubyCore
  import opened Exceptions

  type UserId = nat

  /** What has_secure_password stores in `password_digest`. */
  datatype PasswordDigest = PasswordDigest(salt: nat, checksum: string)

  datatype User = User(id: UserId, email: string, passwordDigest: PasswordDigest, createdAt: int)

  /** bcrypt's hash of a password under a salt. */
  type Hasher = (string, nat) -> string

  /** For a fixed salt, distinct passwords hash differently. */
  ghost predicate InjectiveHasher(h: Hasher) {
    forall a, b, salt :: h(a, salt) == h(b, salt) ==> a == b
  }

  function Digest(h: Hasher, password: string, salt: nat): PasswordDigest {
    PasswordDigest(salt, h(password, salt))
  }

  /** `user.authenticate(password)`: hash the attempt under the stored salt
      and compare with the stored hash. */
  predicate Authenticate(h: Hasher, u: User, password: string)
    ensures Authenticate(h, u, password) <==> Digest(h, password, u.passwordDigest.salt) == u.passwordDigest
  {
    h(password, u.passwordDigest.salt) == u.passwordDigest.checksum
  }

  /** A user created with password `original` authenticates exactly `original`. */
  lemma AuthenticateOriginalOnly(h: Hasher, u: User, original: string, salt: nat, attempt: string)
    requires InjectiveHasher(h)
    requires u.passwordDigest == Digest(h, original, salt)
    ensures Authenticate(h, u, attempt) <==> attempt == original
  {
  }

  /** The first row satisfying `p`, as a query with `LIMIT 1` over rows in
      id order returns it. */
  function FirstIndex(rows: seq<User>, p: User -> bool): (r: Option<nat>)
    ensures r.Some? ==> r.value < |rows| && p(rows[r.value])
    ensures r.Some? ==> forall j :: 0 <= j < r.value ==> !p(rows[j])
    ensures r.None? ==> forall j :: 0 <= j < |rows| ==> !p(rows[j])
  {
    if rows == [] then None
    else if p(rows[0]) then Some(0)
    else match FirstIndex(rows[1..], p)
      case None => None
      case Some(i) => Some(i + 1)
  }

  predicate HasId(users: seq<User>, id: UserId) {
    exists i :: 0 <= i < |users| && users[i].id == id
  }

  /** `User.find(id)`: the user with that id, or RecordNotFound (also for a nil id). */
  function Find(users: seq<User>, id: Option<UserId>): (r: Result<User>)
    ensures r.Ok? <==> id.Some? && HasId(users, id.value)
    ensures r.Ok? ==> r.value.id == id.value && r.value in users
    ensures r.Raise? ==> r.error.RecordNotFound?
  {
    match id
    case None => Raise(RecordNotFound("Couldn't find User without an ID"))
    case Some(n) =>
      match FirstIndex(users, (u: User) => u.id == n)
      case None => Raise(RecordNotFound("Couldn't find User with 'id'=" + Decimal(n)))
      case Some(i) => Ok(users[i])
  }

  /** `User.find_by(email: email)`: the first user whose email is exactly
      `email`; a nil email matches no row. */
  function FindByEmail(users: seq<User>, email: Option<string>): (r: Option<User>)
    ensures r.Some? <==> email.Some? && exists i :: 0 <= i < |users| && users[i].email == email.value
    ensures r.Some? ==> r.value in users && r.value.email == email.value
  {
    match email
    case None => None
    case Some(e) =>
      match FirstIndex(users, (u: User) => u.email == e)
      case None => None
      case Some(i) => Some(users[i])
  }

  /** The case-insensitive uniqueness check: some row has this email up to case. */
  predicate EmailTaken(users: seq<User>, email: string) {
    exists i :: 0 <= i < |users| && Downcase(users[i].email) == Downcase(email)
  }

  /** `user.errors.full_messages` for a new user with these attributes. */
  function UserErrors(users: seq<User>, emailFormat: string -> bool, email: Option<string>, password: Option<string>): (msgs: seq<string>)
    ensures msgs == [] <==>
      && email.Some? && !Blank(email.value) && !EmailTaken(users, email.value) && emailFormat(email.value)
      && password.Some? && |password.value| >= 6
  {
    (if BlankOrNil(email) then ["Email can't be blank"] else [])
    + (if email.Some? && EmailTaken(users, email.value) then ["Email has already been taken"] else [])
    + (if !emailFormat(email.GetOr("")) then ["Email is invalid"] else [])
    + (if password.None? || password.value == "" then ["Password can't be blank"] else [])
    + (if password.None? || |password.value| < 6 then ["Password is too short (minimum is 6 characters)"] else [])
  }

  /** The `user` hash of a login or registration request as the client sent
      it. For email and password, None is a key not sent and Some(None) a key
      sent as nil (JSON null); `other` holds every key besides the two. */
  datatype UserInput = UserInput(email: Option<Option<string>>, password: Option<Option<string>>, other: map<string, string>)

  /** The permitted part of that hash, as `session_params[:email]` reads it:
      nil both for a key not sent and for a key sent as nil. */
  datatype Credentials = Credentials(email: Option<string>, password: Option<string>)

  /** `params.require(:user).permit(:email, :password)`: ParameterMissing
      when the hash is absent or has no key at all (a key sent as nil makes it
      non-empty), otherwise only email and password. */
  function PermitUser(input: Option<UserInput>): (r: Result<Credentials>)
    ensures r.Raise? <==> input.None? || (input.value.email.None? && input.value.password.None? && input.value.other == map[])
    ensures r.Raise? ==> r.error == ParameterMissing("user")
    ensures r.Ok? ==> r.value == Credentials(Flatten(input.value.email), Flatten(input.value.password))
  {
    match input
    case None => Raise(ParameterMissing("user"))
    case Some(i) =>
      if i.email.None? && i.password.None? && i.other == map[] then Raise(ParameterMissing("user"))
      else Ok(Credentials(Flatten(i.email), Flatten(i.password)))
  }

  /** The users table: rows in insertion (id) order. */
  class UserTable {
    var rows: seq<User>
    var nextId: UserId

    /** Ids ascend and stay below the next id; no two emails agree up to case. */
    ghost predicate Valid()
      reads this
    {
      && (forall i :: 0 <= i < |rows| ==> rows[i].id < nextId)
      && (forall i, j :: 0 <= i < j < |rows| ==> rows[i].id < rows[j].id)
      && (forall i, j :: 0 <= i < j < |rows| ==> Downcase(rows[i].email) != Downcase(rows[j].email))
    }

    constructor ()
      ensures Valid() && rows == []
    {
      rows := [];
      nextId := 1;
    }

    /** `User.new(email:, password:).save!` at time `now`, bcrypt drawing `salt`:
        raises RecordInvalid with the full messages, or inserts one row. */
    method Save(email: Option<string>, password: Option<string>, h: Hasher, salt: nat, now: int, emailFormat: string -> bool)
      returns (r: Result<User>)
      requires Valid()
      modifies this
      ensures Valid()
      ensures UserErrors(old(rows), emailFormat, email, password) != [] ==>
        r == Raise(RecordInvalid(UserErrors(old(rows), emailFormat, email, password))) && rows == old(rows)
      ensures UserErrors(old(rows), emailFormat, email, password) == [] ==>
        && r.Ok? && rows == old(rows) + [r.value]
        && !HasId(old(rows), r.value.id)
        && r.value.email == email.value
        && r.value.passwordDigest == Digest(h, password.value, salt)
        && r.value.createdAt == now
    {
      var errors := UserErrors(rows, emailFormat, email, password);
      if errors != [] {
        r := Raise(RecordInvalid(errors));
        return;
      }
      var u := User(nextId, email.value, Digest(h, password.value, salt), now);
      rows := rows + [u];
      nextId := nextId + 1;
      r := Ok(u);
    }
  }
}
