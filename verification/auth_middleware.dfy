/** The `authenticate` middleware: the Bearer-header gate in front of
    protected routes. */
module AuthMiddleware {
  import opened Wrappers
  import opened JsStrings
  import opened Jwt
  import opened AuthController

  const BearerPrefix := "Bearer "
  const Unauthorized := "Unauthorized"
  const DefaultSecret := "default_secret"

  /** The identity attached to the request as `req.user`. */
  datatype AuthUser = AuthUser(id: Option<string>)

  /** Either a 401 with its message body, or `next()` called once, after
      `req.user` was set. */
  datatype GateResult = Reject(status: int, message: string) | Next(user: AuthUser)

  /** The middleware's secret: `JWT_SECRET`, or `'default_secret'` when that
      is unset or empty. Unlike the controller, it never lacks one. */
  function GateSecret(jwtSecret: Option<string>): (s: string)
    ensures s != ""
    ensures Truthy(jwtSecret) ==> s == jwtSecret.value
    ensures !Truthy(jwtSecret) ==> s == DefaultSecret
  {
    if Truthy(jwtSecret) then jwtSecret.value else DefaultSecret
  }

  /** Whenever the controller can sign, the gate verifies with the very same
      secret. */
  lemma GateAgreesWithController(cfg: Config)
    requires SigningSecret(cfg).Some?
    ensures GateSecret(cfg.jwtSecret) == SigningSecret(cfg).value
  {
  }

  /** With `JWT_SECRET` unset or empty the controller issues nothing, yet the
      gate admits any unexpired token signed with the publicly known
      `default_secret`. */
  lemma DefaultSecretAdmitsAnyone(jwtSecret: Option<string>, now: int, c: Claims, iat: int, ttl: int,
                                                    text: string, decode: string -> Token)
    requires !Truthy(jwtSecret)
    requires text != "" && ' ' !in text
    requires decode(text) == Sign(c, DefaultSecret, iat, ttl)
    requires now < iat + ttl
    ensures SigningSecret(Config(jwtSecret, DefaultAccessTtl, DefaultRefreshTtl)).None?
    ensures Authenticate(Some(BearerPrefix + text), jwtSecret, now, decode) == Next(AuthUser(c.id))
  {
    BearerTokenIsSecondField(text, "");
  }

  /** The header checks and `authHeader.split(' ')[1]`: the token string, or
      `None` when the request is rejected before verification. */
  function BearerToken(header: Option<string>): (t: Option<string>)
    ensures t.Some? ==> header.Some? && StartsWith(header.value, BearerPrefix)
    ensures t.Some? ==> t.value != "" && ' ' !in t.value
    ensures t.Some? ==> StartsWith(header.value[|BearerPrefix|..], t.value)
  {
    if !Truthy(header) || !StartsWith(header.value, BearerPrefix) then None
    else
      var h := header.value;
      var rest := h[|BearerPrefix|..];
      assert h == "Bearer" + [' '] + rest;
      SplitAtFirstSeparator("Bearer", ' ', rest);
      var field := Split(h, ' ')[1];
      assert field == Split(rest, ' ')[0];
      FirstFieldIsPrefix(rest);
      if field == "" then None else Some(field)
  }

  /** The first space-separated field of `s` is a prefix of `s`. */
  lemma {:induction false} FirstFieldIsPrefix(s: string)
    ensures StartsWith(s, Split(s, ' ')[0])
    decreases |s|
  {
    if |s| > 0 && s[0] != ' ' {
      FirstFieldIsPrefix(s[1..]);
    }
  }

  /** `authenticate` as written: the header gate, then `jwt.verify` with the
      middleware's secret, then `req.user = { _id: decoded._id }` and `next()`.
      Every rejection is the same 401 `{ message: 'Unauthorized' }`. The
      compact serialisation of a token is abstracted by `decode`. */
  function Authenticate(header: Option<string>, jwtSecret: Option<string>, now: int, decode: string -> Token)
    : (r: GateResult)
    ensures r.Reject? ==> r == Reject(UNAUTHORIZED, Unauthorized)
    ensures r.Next? <==>
      && BearerToken(header).Some?
      && Verify(decode(BearerToken(header).value), GateSecret(jwtSecret), now).Some?
    ensures r.Next? ==>
      r.user.id == decode(BearerToken(header).value).claims.id
  {
    match BearerToken(header)
    case None => Reject(UNAUTHORIZED, Unauthorized)
    case Some(token) =>
      match Verify(decode(token), GateSecret(jwtSecret), now)
      case None => Reject(UNAUTHORIZED, Unauthorized)
      case Some(claims) => Next(AuthUser(claims.id))
  }

  /** `authenticate` as evidently intended: the same gate, attaching the
      `userId` claim that the controller's tokens actually carry. */
  function AuthenticateIntended(header: Option<string>, jwtSecret: Option<string>, now: int, decode: string -> Token)
    : (r: GateResult)
    ensures r.Reject? ==> r == Reject(UNAUTHORIZED, Unauthorized)
    ensures r.Next? <==> Authenticate(header, jwtSecret, now, decode).Next?
    ensures r.Next? ==>
      r.user.id == decode(BearerToken(header).value).claims.userId
  {
    match BearerToken(header)
    case None => Reject(UNAUTHORIZED, Unauthorized)
    case Some(token) =>
      match Verify(decode(token), GateSecret(jwtSecret), now)
      case None => Reject(UNAUTHORIZED, Unauthorized)
      case Some(claims) => Next(AuthUser(claims.userId))
  }

  /** The header gate accepts exactly the headers that start with the
      case-sensitive `"Bearer "` followed directly by a non-space character. */
  lemma BearerTokenIff(h: string)
    ensures BearerToken(Some(h)).Some? <==>
      StartsWith(h, BearerPrefix) && |h| > |BearerPrefix| && h[|BearerPrefix|] != ' '
  {
    if StartsWith(h, BearerPrefix) {
      var rest := h[|BearerPrefix|..];
      assert h == "Bearer" + [' '] + rest;
      SplitAtFirstSeparator("Bearer", ' ', rest);
      if |rest| > 0 && rest[0] != ' ' {
        var tail := Split(rest[1..], ' ');
        assert Split(rest, ' ')[0] == [rest[0]] + tail[0];
      } else if |rest| > 0 {
        assert Split(rest, ' ')[0] == "";
      }
    }
  }

  /** The token is the second space-separated field, not the rest of the
      header: `"Bearer a b"` yields `"a"`. */
  lemma BearerTokenIsSecondField(t: string, rest: string)
    requires t != "" && ' ' !in t
    ensures BearerToken(Some(BearerPrefix + t)) == Some(t)
    ensures BearerToken(Some(BearerPrefix + t + " " + rest)) == Some(t)
  {
    BearerTokenAlone(t);
    BearerTokenBeforeSpace(t, rest);
  }

  lemma BearerTokenAlone(t: string)
    requires t != "" && ' ' !in t
    ensures BearerToken(Some(BearerPrefix + t)) == Some(t)
  {
    var h := BearerPrefix + t;
    assert h == "Bearer" + [' '] + t;
    assert h[|BearerPrefix|..] == t;
    SplitAtFirstSeparator("Bearer", ' ', t);
    SplitWithoutSeparator(t, ' ');
  }

  lemma BearerTokenBeforeSpace(t: string, rest: string)
    requires t != "" && ' ' !in t
    ensures BearerToken(Some(BearerPrefix + t + " " + rest)) == Some(t)
  {
    var h := BearerPrefix + t + " " + rest;
    assert h == "Bearer" + [' '] + (t + [' '] + rest);
    assert h[|BearerPrefix|..] == t + [' '] + rest;
    SplitAtFirstSeparator("Bearer", ' ', t + [' '] + rest);
    SplitAtFirstSeparator(t, ' ', rest);
  }

  /** Missing header, wrong scheme, and an empty token (`"Bearer "`, or a
      double space as in `"Bearer  x"`) are all the same 401. */
  lemma MalformedHeadersRejected(jwtSecret: Option<string>, now: int, decode: string -> Token, h: string)
    requires !StartsWith(h, BearerPrefix) || h == BearerPrefix || StartsWith(h, "Bearer  ")
    ensures Authenticate(None, jwtSecret, now, decode) == Reject(UNAUTHORIZED, Unauthorized)
    ensures Authenticate(Some(h), jwtSecret, now, decode) == Reject(UNAUTHORIZED, Unauthorized)
  {
    BearerTokenIff(h);
    if StartsWith(h, "Bearer  ") {
      assert h[|BearerPrefix|] == ' ';
    }
  }

  /** As written, a valid access token from the controller passes the gate
      but attaches no identity: it carries `userId`, and `_id` is undefined. */
  lemma ControllerTokenAttachesNoIdentity(cfg: Config, userId: string, iat: int, now: int,
                                                            text: string, decode: string -> Token)
    requires SigningSecret(cfg).Some?
    requires text != "" && ' ' !in text
    requires decode(text) == GenerateToken(SigningSecret(cfg).value, cfg, userId, iat).token
    requires now < iat + cfg.accessTtl
    ensures Authenticate(Some(BearerPrefix + text), cfg.jwtSecret, now, decode) == Next(AuthUser(None))
  {
    BearerTokenIsSecondField(text, "");
  }

  /** As intended, the same token resolves to the user it was issued for. */
  lemma ControllerTokenResolvesToUser(cfg: Config, userId: string, iat: int, now: int,
                                                        text: string, decode: string -> Token)
    requires SigningSecret(cfg).Some?
    requires text != "" && ' ' !in text
    requires decode(text) == GenerateToken(SigningSecret(cfg).value, cfg, userId, iat).token
    requires now < iat + cfg.accessTtl
    ensures AuthenticateIntended(Some(BearerPrefix + text), cfg.jwtSecret, now, decode) == Next(AuthUser(Some(userId)))
  {
    BearerTokenIsSecondField(text, "");
  }
}
