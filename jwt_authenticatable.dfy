/**
 * The authentication gate of app/controllers/concerns/jwt_authenticatable.rb:
 * take the token from the `Authorization` header (RFC 6750 section 2.1,
 * the `Bearer` scheme), decode it, load the user it names, and collapse
 * every way of failing into one JWT::DecodeError with one message.
 */
module JwtAuthenticatable {
  import opened RubyCore
  import opened Exceptions
  import opened JwtToken
  import opened Users

  const BearerPrefix: string := "Bearer "
  const MissingTokenMessage: string := "Missing token"
  const InvalidTokenMessage: string := "Invalid or expired token"

  /** `extract_token_from_header`: nil without a header or without the exact,
      case-sensitive `"Bearer "` prefix; otherwise the LAST whitespace-separated
      field of the whole header, which always exists because of the prefix. */
  function ExtractTokenFromHeader(authorization: Option<string>): (token: Option<string>)
    ensures token.Some? <==> authorization.Some? && StartsWith(authorization.value, BearerPrefix)
    ensures token.Some? ==> token.value != [] && NoSpace(token.value)
    ensures token.Some? ==> token == Last(Split(authorization.value))
  {
    match authorization
    case None => None
    case Some(h) =>
      if StartsWith(h, BearerPrefix) then
        SplitAfterWord("Bearer", ' ', h[|BearerPrefix|..]);
        assert h == "Bearer" + [' '] + h[|BearerPrefix|..];
        Last(Split(h))
      else None
  }

  /** After the prefix, the token is the last field of the rest of the
      header, or the word "Bearer" itself when nothing but whitespace follows. */
  lemma ExtractAfterPrefix(rest: string)
    ensures ExtractTokenFromHeader(Some(BearerPrefix + rest)) ==
      Some(if Split(rest) == [] then "Bearer" else Split(rest)[|Split(rest)| - 1])
  {
    var h := BearerPrefix + rest;
    assert h[..|BearerPrefix|] == BearerPrefix;
    assert h == "Bearer" + [' '] + rest;
    SplitAfterWord("Bearer", ' ', rest);
    var fields := Split(h);
    assert fields == ["Bearer"] + Split(rest);
    assert ExtractTokenFromHeader(Some(h)) == Last(fields);
  }

  /** A well-formed `Bearer <token>` header yields exactly that token. */
  lemma ExtractBearerToken(token: string)
    requires token != [] && NoSpace(token)
    ensures ExtractTokenFromHeader(Some(BearerPrefix + token)) == Some(token)
  {
    ExtractAfterPrefix(token);
    SplitWord(token);
  }

  /** Of several fields after the prefix, the last one is taken. */
  lemma ExtractLastField()
    ensures ExtractTokenFromHeader(Some("Bearer a b")) == Some("b")
  {
    var rest := "a b";
    assert rest == "a" + [' '] + "b";
    SplitAfterWord("a", ' ', "b");
    SplitWord("b");
    assert Split(rest) == ["a", "b"];
    ExtractAfterPrefix(rest);
    assert BearerPrefix + rest == "Bearer a b";
  }

  /** With nothing after the prefix, the scheme word itself is the token. */
  lemma ExtractPrefixOnly()
    ensures ExtractTokenFromHeader(Some("Bearer ")) == Some("Bearer")
  {
    ExtractAfterPrefix("");
    assert BearerPrefix + "" == "Bearer ";
    SplitAllSpace("");
  }

  /** The scheme is matched case-sensitively and needs its trailing space. */
  lemma ExtractNeedsExactPrefix()
    ensures ExtractTokenFromHeader(Some("bearer a")) == None
    ensures ExtractTokenFromHeader(Some("Bearer")) == None
  {
    assert !StartsWith("bearer a", BearerPrefix) by { assert "bearer a"[0] != BearerPrefix[0]; }
  }

  /** The extracted field is free of the ASCII separators but may still be
      blank: in a header read as UTF-8, where `[[:space:]]` covers U+00A0, a
      no-break space after the prefix is a one-character field that `blank?`
      rejects, so the blank check of `authenticate_user!` can fire. */
  lemma BlankTokenAfterPrefix()
    ensures ExtractTokenFromHeader(Some(BearerPrefix + "\U{00A0}")) == Some("\U{00A0}")
    ensures Blank("\U{00A0}")
  {
    ExtractBearerToken("\U{00A0}");
  }

  /** The body of `authenticate_user!`, before its rescue clause. */
  function AuthenticateRequestBody(authorization: Option<string>, parse: Parser, secret: string, now: int, users: seq<User>)
    : (r: Result<User>)
    ensures r.Raise? ==> IsDecodeError(r.error) || r.error.RecordNotFound?
  {
    var token := ExtractTokenFromHeader(authorization);
    if BlankOrNil(token) then Raise(DecodeError(MissingTokenMessage))
    else
      match Decode(token.value, parse, secret, now)
      case Raise(e) => Raise(e)
      case Ok(userId) => Find(users, userId)
  }

  /** The exceptions the rescue clause catches. */
  predicate Rescued(e: Exception) {
    IsDecodeError(e) || e.RecordNotFound?
  }

  /** `authenticate_user!`: the user, or the single JWT::DecodeError
      "Invalid or expired token" whatever went wrong. */
  function AuthenticateRequest(authorization: Option<string>, parse: Parser, secret: string, now: int, users: seq<User>)
    : (r: Result<User>)
    ensures r.Raise? ==> r.error == DecodeError(InvalidTokenMessage)
  {
    match AuthenticateRequestBody(authorization, parse, secret, now, users)
    case Ok(u) => Ok(u)
    case Raise(e) => if Rescued(e) then Raise(DecodeError(InvalidTokenMessage)) else Raise(e)
  }

  /** The token the request carries, when it carries a usable one. */
  function PresentedToken(authorization: Option<string>): Option<string> {
    var token := ExtractTokenFromHeader(authorization);
    if BlankOrNil(token) then None else token
  }

  /** Authentication succeeds exactly when the header carries a non-blank
      token that parses to an HS256 token signed with the secret, unexpired,
      whose `user_id` names a user; the user returned is that one. */
  lemma AuthenticateOk(authorization: Option<string>, parse: Parser, secret: string, now: int, users: seq<User>)
    ensures AuthenticateRequest(authorization, parse, secret, now, users).Ok? <==>
      && PresentedToken(authorization).Some?
      && parse(PresentedToken(authorization).value).Some?
      && Accepted(parse(PresentedToken(authorization).value).value, secret, now)
      && parse(PresentedToken(authorization).value).value.claims.userId.Some?
      && HasId(users, parse(PresentedToken(authorization).value).value.claims.userId.value)
    ensures AuthenticateRequest(authorization, parse, secret, now, users).Ok? ==>
      && AuthenticateRequest(authorization, parse, secret, now, users).value in users
      && AuthenticateRequest(authorization, parse, secret, now, users).value.id ==
         parse(PresentedToken(authorization).value).value.claims.userId.value
  {
  }

  /** No header, a malformed token, an expired token and a token for a user
      that no longer exists all end in the same exception. */
  lemma AuthenticateFailuresAlike(
    a1: Option<string>, p1: Parser, s1: string, n1: int, u1: seq<User>,
    a2: Option<string>, p2: Parser, s2: string, n2: int, u2: seq<User>)
    requires AuthenticateRequest(a1, p1, s1, n1, u1).Raise?
    requires AuthenticateRequest(a2, p2, s2, n2, u2).Raise?
    ensures AuthenticateRequest(a1, p1, s1, n1, u1) == AuthenticateRequest(a2, p2, s2, n2, u2)
  {
  }

  /** A request without an Authorization header is rejected. */
  lemma AuthenticateWithoutHeader(parse: Parser, secret: string, now: int, users: seq<User>)
    ensures AuthenticateRequest(None, parse, secret, now, users) == Raise(DecodeError(InvalidTokenMessage))
  {
  }

  /** End to end: `Bearer <t>` where `t` is a token `JwtToken.encode` issued
      for an existing user under the same secret, presented before it expires,
      authenticates as that user. */
  lemma AuthenticateIssuedToken(
    t: string, parse: Parser, u: User, issuedAt: int, secret: string, now: int, users: seq<User>)
    requires t != [] && NoSpace(t) && !Blank(t)
    requires parse(t) == Some(Encode(u.id, issuedAt, secret))
    requires now < issuedAt + Lifetime
    requires u in users
    requires forall i, j :: 0 <= i < j < |users| ==> users[i].id != users[j].id
    ensures AuthenticateRequest(Some(BearerPrefix + t), parse, secret, now, users) == Ok(u)
  {
    ExtractBearerToken(t);
    DecodeEncode(u.id, issuedAt, secret, t, parse, now);
    var r := Find(users, Some(u.id));
    assert r.Ok?;
    var i :| 0 <= i < |users| && users[i] == r.value;
    var k :| 0 <= k < |users| && users[k] == u;
    assert i == k;
  }

  /** The controller instance: `@current_user` is set only on success. */
  class Controller {
    var currentUser: Option<User>

    constructor ()
      ensures currentUser == None
    {
      currentUser := None;
    }

    /** `authenticate_user!`, run as the before_action of every task action.
        It reads the user table and never writes it. */
    method AuthenticateUser(authorization: Option<string>, parse: Parser, secret: string, now: int, users: UserTable)
      returns (r: Result<User>)
      modifies this
      ensures r == AuthenticateRequest(authorization, parse, secret, now, users.rows)
      ensures r.Ok? ==> currentUser == Some(r.value)
      ensures r.Raise? ==> currentUser == old(currentUser)
      ensures users.rows == old(users.rows)
    {
      r := AuthenticateRequest(authorization, parse, secret, now, users.rows);
      if r.Ok? {
        currentUser := Some(r.value);
      }
    }
  }
}
