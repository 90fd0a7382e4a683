/** The auth controller: token issuing, registration, login and refresh-token
    rotation, each a pure transition from a request and a user store to a
    response and the store after the request. */
module AuthController {
  import opened Wrappers
  import opened JsStrings
  import opened Jwt
  import opened PasswordHash
  import opened UserModel

  const OK := 200
  const CREATED := 201
  const BAD_REQUEST := 400
  const UNAUTHORIZED := 401

  const DefaultAccessTtl := 3600
  const DefaultRefreshTtl := 86400

  const RegistrationFailed := "Registration failed"
  const CredentialsRequired := "Email and password are required"
  const InvalidCredentials := "Invalid email or password"
  const LoginFailed := "Login failed"
  const RefreshTokenRequired := "Refresh token is required"
  const InvalidRefreshToken := "Invalid refresh token"

  /** Process configuration, read once at start-up: `JWT_SECRET` (absent when
      unset) and the two token lifetimes in seconds. */
  datatype Config = Config(jwtSecret: Option<string>, accessTtl: int, refreshTtl: int)

  /** Reading the environment. A lifetime variable that is unset or empty is
      `None` and falls back to its default. */
  function LoadConfig(secretVar: Option<string>, expiresVar: Option<int>, refreshVar: Option<int>): (cfg: Config)
    ensures cfg.jwtSecret == secretVar
    ensures expiresVar.None? ==> cfg.accessTtl == 3600
    ensures refreshVar.None? ==> cfg.refreshTtl == 86400
    ensures expiresVar.Some? ==> cfg.accessTtl == expiresVar.value
    ensures refreshVar.Some? ==> cfg.refreshTtl == refreshVar.value
  {
    Config(secretVar, expiresVar.GetOr(DefaultAccessTtl), refreshVar.GetOr(DefaultRefreshTtl))
  }

  /** The secret `jwt.sign` and `jwt.verify` accept: the library throws on an
      unset or empty one. */
  function SigningSecret(cfg: Config): (s: Option<string>)
    ensures s.Some? <==> Truthy(cfg.jwtSecret)
    ensures s.Some? ==> s.value != "" && s == cfg.jwtSecret
  {
    if Truthy(cfg.jwtSecret) then cfg.jwtSecret else None
  }

  datatype TokenPair = TokenPair(token: Token, refreshToken: Token)

  /** The claims every controller token carries: `userId` and nothing else. */
  function UserClaims(userId: UserId): Claims {
    Claims(Some(userId), None)
  }

  /** `generateToken(userId)` at clock second `now`: an access token and a
      refresh token with the same claims and secret and their own lifetimes. */
  function GenerateToken(secret: string, cfg: Config, userId: UserId, now: int): (pair: TokenPair)
    requires secret != ""
    ensures pair.token.Signed? && pair.refreshToken.Signed?
    ensures pair.token.claims == UserClaims(userId) && pair.refreshToken.claims == UserClaims(userId)
    ensures pair.token.secret == secret && pair.refreshToken.secret == secret
    ensures pair.token.iat == now && pair.refreshToken.iat == now
    ensures pair.token.exp == now + cfg.accessTtl && pair.refreshToken.exp == now + cfg.refreshTtl
    ensures pair.token == pair.refreshToken <==> cfg.accessTtl == cfg.refreshTtl
  {
    TokenPair(Sign(UserClaims(userId), secret, now, cfg.accessTtl),
              Sign(UserClaims(userId), secret, now, cfg.refreshTtl))
  }

  datatype Body = Issued(tokens: TokenPair) | ErrorMessage(error: string)

  datatype Response = Response(status: int, body: Body)

  /** A response together with the user store after the request. */
  datatype Outcome = Outcome(response: Response, store: Store)

  /** Where, if anywhere, a collaborator throws during a request: bcrypt or a
      lookup before the final save, or the final `save()` itself. */
  datatype Fault = Healthy | FailsBeforeSave | FailsOnSave

  /** The nondeterminism of one request: the clock second, the salt bcrypt
      draws, the `_id` a new document would get, and the fault, if any. */
  datatype Env = Env(now: int, salt: nat, newId: UserId, fault: Fault)

  datatype RegisterRequest = RegisterRequest(email: Option<string>, password: Option<string>, username: Option<string>)

  datatype LoginRequest = LoginRequest(email: Option<string>, password: Option<string>)

  /** `sendError(res, message, code)`: an absent (or zero) code means 400. */
  function SendError(message: string, code: Option<int>): (r: Response)
    ensures r.body == ErrorMessage(message)
    ensures code.None? ==> r.status == BAD_REQUEST
    ensures code == Some(0) ==> r.status == BAD_REQUEST
    ensures code.Some? && code.value != 0 ==> r.status == code.value
  {
    Response(if code.Some? && code.value != 0 then code.value else BAD_REQUEST, ErrorMessage(message))
  }

  /** The single failure response of `register`. */
  function RegisterFailure(st: Store): Outcome {
    Outcome(SendError(RegistrationFailed, Some(UNAUTHORIZED)), st)
  }

  /** The failure response of `refreshToken` for every rejected token. */
  function InvalidRefresh(st: Store): Outcome {
    Outcome(SendError(InvalidRefreshToken, Some(UNAUTHORIZED)), st)
  }

  /** `register`: hash the password, create the user, issue a pair, push the
      refresh token and save. Every thrown error becomes 401. A failure after
      `User.create` succeeded (no signing secret, or `save()` throws) leaves
      the new user stored with no refresh token. */
  function Register(cfg: Config, req: RegisterRequest, env: Env, st: Store): (out: Outcome)
    ensures out.response.status == CREATED || out == RegisterFailure(out.store)
    ensures out.response.status == CREATED ==>
      && SigningSecret(cfg).Some?
      && out.response.body == Issued(GenerateToken(SigningSecret(cfg).value, cfg, env.newId, env.now))
      && |out.store| == |st| + 1
      && out.store[..|st|] == st
      && out.store[|st|].id == env.newId
      && out.store[|st|].refreshTokens == [out.response.body.tokens.refreshToken]
    ensures out.response.status != CREATED ==>
      || out.store == st
      || (&& |out.store| == |st| + 1
          && out.store[..|st|] == st
          && out.store[|st|].refreshTokens == [])
    ensures Valid(st) ==> Valid(out.store)
  {
    if env.fault == FailsBeforeSave || req.password.None? then RegisterFailure(st)
    else
      match Create(st, env.newId, req.email, HashPassword(req.password.value, env.salt), req.username)
      case Failure(_) => RegisterFailure(st)
      case Success(created) =>
        match SigningSecret(cfg)
        case None => RegisterFailure(created)
        case Some(secret) =>
          if env.fault == FailsOnSave then RegisterFailure(created)
          else
            var tokens := GenerateToken(secret, cfg, env.newId, env.now);
            var saved := SetRefreshTokens(created, |st|, [tokens.refreshToken]);
            assert saved[..|st|] == created[..|st|];
            Outcome(Response(CREATED, Issued(tokens)), saved)
  }

  /** `login`: missing fields are 400 before any lookup; an unknown email and a
      wrong password are the same 401; a thrown error is 400 "Login failed";
      success appends one refresh token to the user's list and saves. */
  function Login(cfg: Config, req: LoginRequest, env: Env, st: Store): (out: Outcome)
    ensures !Truthy(req.email) || !Truthy(req.password) ==>
      out == Outcome(Response(BAD_REQUEST, ErrorMessage(CredentialsRequired)), st)
    ensures out.response.status in {OK, BAD_REQUEST, UNAUTHORIZED}
    ensures out.response.status != OK ==> out.store == st && out.response.body.ErrorMessage?
    ensures out.response.status == UNAUTHORIZED ==> out.response.body == ErrorMessage(InvalidCredentials)
    ensures out.response.status == BAD_REQUEST ==>
      out.response.body.error in {CredentialsRequired, LoginFailed}
    ensures out.response.body == ErrorMessage(CredentialsRequired) <==> !Truthy(req.email) || !Truthy(req.password)
    ensures out.response.status == OK ==>
      && Truthy(req.email) && Truthy(req.password)
      && SigningSecret(cfg).Some?
      && var found := FindByEmail(st, ToLower(req.email.value));
      && found.Some?
      && Compare(req.password.value, st[found.value].password)
      && out.response.body == Issued(GenerateToken(SigningSecret(cfg).value, cfg, st[found.value].id, env.now))
      && out.store == SetRefreshTokens(st, found.value,
                        st[found.value].refreshTokens + [out.response.body.tokens.refreshToken])
    ensures && Truthy(req.email) && Truthy(req.password)
            && env.fault == Healthy && SigningSecret(cfg).Some?
            && FindByEmail(st, ToLower(req.email.value)).Some?
            && Compare(req.password.value, st[FindByEmail(st, ToLower(req.email.value)).value].password)
            ==> out.response.status == OK
    ensures Valid(st) ==> Valid(out.store)
  {
    if !Truthy(req.email) || !Truthy(req.password) then
      Outcome(SendError(CredentialsRequired, None), st)
    else if env.fault == FailsBeforeSave then
      Outcome(SendError(LoginFailed, None), st)
    else
      match FindByEmail(st, ToLower(req.email.value))
      case None => Outcome(SendError(InvalidCredentials, Some(UNAUTHORIZED)), st)
      case Some(i) =>
        if !Compare(req.password.value, st[i].password) then
          Outcome(SendError(InvalidCredentials, Some(UNAUTHORIZED)), st)
        else
          match SigningSecret(cfg)
          case None => Outcome(SendError(LoginFailed, None), st)
          case Some(secret) =>
            if env.fault == FailsOnSave then Outcome(SendError(LoginFailed, None), st)
            else
              var tokens := GenerateToken(secret, cfg, st[i].id, env.now);
              Outcome(Response(OK, Issued(tokens)),
                      SetRefreshTokens(st, i, st[i].refreshTokens + [tokens.refreshToken]))
  }

  /** The `filter` that drops every copy of `x`, keeping the rest in order:
      a sequence without `x` is kept as is, and `RemoveAllConcat` shows that
      filtering works piece by piece. */
  function RemoveAll<T(==)>(s: seq<T>, x: T): (r: seq<T>)
    ensures x !in r
    ensures multiset(r) == multiset(s)[x := 0]
    ensures forall y :: y in r ==> y in s
    ensures x !in s ==> r == s
    decreases |s|
  {
    if |s| == 0 then []
    else
      var rest := RemoveAll(s[1..], x);
      assert s == [s[0]] + s[1..];
      assert multiset(s) == multiset{s[0]} + multiset(s[1..]);
      if s[0] == x then rest else [s[0]] + rest
  }

  /** Filtering a concatenation filters each part and keeps their order;
      with `x !in s ==> RemoveAll(s, x) == s` this pins the result as the
      order-preserving subsequence of the elements other than `x`. */
  lemma {:induction false} RemoveAllConcat<T>(a: seq<T>, b: seq<T>, x: T)
    ensures RemoveAll(a + b, x) == RemoveAll(a, x) + RemoveAll(b, x)
    decreases |a|
  {
    if |a| > 0 {
      assert (a + b)[1..] == a[1..] + b;
      RemoveAllConcat(a[1..], b, x);
    } else {
      assert a + b == b;
    }
  }

  /** `refreshToken`: a missing token is 400; a token that does not verify or
      whose user is gone is 401 with the store unchanged; a verified token
      absent from its user's list empties that list (reuse detection) and is
      401; otherwise a new pair is issued, its refresh token pushed, every copy
      of the presented token filtered out, and the result saved. */
  function RefreshToken(cfg: Config, presented: Option<Token>, env: Env, st: Store): (out: Outcome)
    ensures presented.None? || presented == Some(Forged("")) ==>
      out == Outcome(Response(BAD_REQUEST, ErrorMessage(RefreshTokenRequired)), st)
    ensures out.response.status in {OK, BAD_REQUEST, UNAUTHORIZED}
    ensures out.response.status == BAD_REQUEST ==> presented.None? || presented == Some(Forged(""))
    ensures out.response.status != OK ==> out.response.body.ErrorMessage?
    ensures out.response.status == UNAUTHORIZED ==> out.response.body == ErrorMessage(InvalidRefreshToken)
    ensures out.response.status != OK && out.store != st ==>
      && out.response.status == UNAUTHORIZED
      && presented.Some? && presented.value.Signed?
      && var claims := presented.value.claims;
      && claims.userId.Some?
      && var found := FindById(st, claims.userId.value);
      && found.Some?
      && presented.value !in st[found.value].refreshTokens
      && out.store == SetRefreshTokens(st, found.value, [])
    ensures out.response.status == OK ==>
      && env.fault == Healthy
      && presented.Some? && presented.value.Signed?
      && var t := presented.value;
      && SigningSecret(cfg).Some?
      && Verify(t, SigningSecret(cfg).value, env.now).Some?
      && t.claims.userId.Some?
      && var found := FindById(st, t.claims.userId.value);
      && found.Some?
      && t in st[found.value].refreshTokens
      && out.response.body == Issued(GenerateToken(SigningSecret(cfg).value, cfg, st[found.value].id, env.now))
      && out.store == SetRefreshTokens(st, found.value,
                        RemoveAll(st[found.value].refreshTokens + [out.response.body.tokens.refreshToken], t))
    ensures Valid(st) ==> Valid(out.store)
  {
    if presented.None? || presented.value == Forged("") then
      Outcome(SendError(RefreshTokenRequired, None), st)
    else
      var t := presented.value;
      match SigningSecret(cfg)
      case None => InvalidRefresh(st)
      case Some(secret) =>
        match Verify(t, secret, env.now)
        case None => InvalidRefresh(st)
        case Some(claims) =>
          if env.fault == FailsBeforeSave || claims.userId.None? then InvalidRefresh(st)
          else
            match FindById(st, claims.userId.value)
            case None => InvalidRefresh(st)
            case Some(i) =>
              if t !in st[i].refreshTokens then
                if env.fault == FailsOnSave then InvalidRefresh(st)
                else InvalidRefresh(SetRefreshTokens(st, i, []))
              else if env.fault == FailsOnSave then InvalidRefresh(st)
              else
                assert env.fault.Healthy?;
                var tokens := GenerateToken(secret, cfg, st[i].id, env.now);
                Outcome(Response(OK, Issued(tokens)),
                        SetRefreshTokens(st, i, RemoveAll(st[i].refreshTokens + [tokens.refreshToken], t)))
  }
}
