/** The `auth` middleware of server/src/middleware/auth.js: the bearer token
    is taken from the Authorization header, verified, and its `user` claim
    becomes `req.user`. Signature checking belongs to the JWT library and is
    the `verify` parameter: it either decodes the claims or fails with an
    error name. */
module AuthMiddleware {
  import opened Common
  import opened Documents

  /** The decoded payload; its `user` claim may be missing. */
  datatype Claims = Claims(user: Option<AuthUser>)

  /** `jwt.verify(token, secret)`: the claims, or the name of the error it
      throws. */
  datatype Verified =
    | Decoded(claims: Claims)
    | JsonWebTokenError
    | TokenExpiredError
    | OtherError(name: string)

  /** The middleware either calls `next()` with `req.user` set, or answers
      `{ success: false, message }` with a status. */
  datatype Decision = Next(user: Option<AuthUser>) | Deny(status: int, message: string)

  const BearerPrefix := "Bearer "

  /** `req.header('Authorization')?.replace('Bearer ', '')`: the first
      occurrence of the prefix goes, wherever it stands. */
  function ExtractToken(header: Option<string>): Option<string> {
    match header
    case None => None
    case Some(h) => Some(ReplaceFirst(h, BearerPrefix, ""))
  }

  /** The whole decision of the middleware for one request. */
  function Authenticate(header: Option<string>, verify: string -> Verified): (r: Decision)
    ensures r.Next? <==>
              ExtractToken(header).Some? && ExtractToken(header).value != ""
              && verify(ExtractToken(header).value).Decoded?
    ensures r.Next? ==> r.user == verify(ExtractToken(header).value).claims.user
    ensures (ExtractToken(header).None? || ExtractToken(header).value == "") ==>
              r == Deny(401, "No token, authorization denied")
    ensures ExtractToken(header).Some? && ExtractToken(header).value != "" ==>
      var v := verify(ExtractToken(header).value);
      && (v.JsonWebTokenError? ==> r == Deny(401, "Invalid token"))
      && (v.TokenExpiredError? ==> r == Deny(401, "Token expired"))
      && (v.OtherError? ==> r == Deny(500, "Server error"))
  {
    match ExtractToken(header)
    case None => Deny(401, "No token, authorization denied")
    case Some(token) =>
      if token == "" then Deny(401, "No token, authorization denied")
      else
        match verify(token)
        case Decoded(claims) => Next(claims.user)
        case JsonWebTokenError => Deny(401, "Invalid token")
        case TokenExpiredError => Deny(401, "Token expired")
        case OtherError(_) => Deny(500, "Server error")
  }

  /** A header "Bearer t" yields t. */
  lemma ExtractBearer(t: string)
    ensures ExtractToken(Some(BearerPrefix + t)) == Some(t)
  {
    var h := BearerPrefix + t;
    assert h[0..|BearerPrefix|] == BearerPrefix;
    assert OccursAt(h, BearerPrefix, 0);
    assert IndexOf(h, BearerPrefix) == Some(0);
    assert h[|BearerPrefix|..] == t;
    assert ReplaceFirst(h, BearerPrefix, "") == h[..0] + "" + h[|BearerPrefix|..];
    assert h[..0] + "" + t == t;
  }

  /** The prefix is removed at its first occurrence, not only at the start:
      whatever surrounds it is glued together. */
  lemma ExtractAnywhere(a: string, b: string)
    requires IndexOf(a + BearerPrefix + b, BearerPrefix) == Some(|a|)
    ensures ExtractToken(Some(a + BearerPrefix + b)) == Some(a + b)
  {
    var h := a + BearerPrefix + b;
    assert h[..|a|] == a;
    assert h[|a| + |BearerPrefix|..] == b;
    assert ReplaceFirst(h, BearerPrefix, "") == h[..|a|] + "" + h[|a| + |BearerPrefix|..];
    assert a + "" + b == a + b;
  }

  /** A header without the prefix is used as the token as it is. */
  lemma ExtractWithoutBearer(h: string)
    requires forall k :: !OccursAt(h, BearerPrefix, k)
    ensures ExtractToken(Some(h)) == Some(h)
  {
    ReplaceFirstSpec(h, BearerPrefix, "");
  }

  /** An Express request as far as the middleware touches it. */
  class Request {
    const authorization: Option<string>
    var user: Option<AuthUser>
    /** How many times `next()` was called. */
    var nextCalls: nat

    constructor (authorization: Option<string>)
      ensures this.authorization == authorization && user == None && nextCalls == 0
    {
      this.authorization := authorization;
      user := None;
      nextCalls := 0;
    }

    /** `auth(req, res, next)`: on success `req.user` is the claim and `next`
        runs once; otherwise the request is left as it was. */
    method Auth(verify: string -> Verified) returns (d: Decision)
      modifies this`user, this`nextCalls
      ensures d == Authenticate(authorization, verify)
      ensures d.Next? ==> user == d.user && nextCalls == old(nextCalls) + 1
      ensures d.Deny? ==> user == old(user) && nextCalls == old(nextCalls)
    {
      var token := ExtractToken(authorization);
      if token.None? || token.value == "" {
        return Deny(401, "No token, authorization denied");
      }
      var verified := verify(token.value);
      match verified
      case Decoded(claims) =>
        user := claims.user;
        nextCalls := nextCalls + 1;
        d := Next(claims.user);
      case JsonWebTokenError =>
        d := Deny(401, "Invalid token");
      case TokenExpiredError =>
        d := Deny(401, "Token expired");
      case OtherError(_) =>
        d := Deny(500, "Server error");
    }
  }
}
