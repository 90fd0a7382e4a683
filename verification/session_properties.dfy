/** Properties of the refresh-token session state machine that relate
    several requests, or a request to an invariant of the user store. */
module SessionProperties {
  import opened Wrappers
  import opened JsStrings
  import opened Jwt
  import opened PasswordHash
  import opened UserModel
  import opened AuthController

  /** `t` is a refresh token the controller issued for `userId`. */
  predicate IsRefreshTokenOf(cfg: Config, t: Token, userId: UserId) {
    && t.Signed?
    && t.claims == UserClaims(userId)
    && SigningSecret(cfg) == Some(t.secret)
    && t.exp == t.iat + cfg.refreshTtl
  }

  /** Store invariant: every stored refresh token was issued for its owner. */
  predicate TokensOwned(cfg: Config, st: Store) {
    forall i, k :: 0 <= i < |st| && 0 <= k < |st[i].refreshTokens| ==>
      IsRefreshTokenOf(cfg, st[i].refreshTokens[k], st[i].id)
  }

  // ---------------------------------------------------------------------
  // register

  /** Registration succeeds exactly when nothing throws: a password is given,
      email and username are non-empty, neither the lower-cased email nor the
      new `_id` is taken, and a signing secret is configured. */
  lemma RegisterSucceedsIff(cfg: Config, req: RegisterRequest, env: Env, st: Store)
    ensures Register(cfg, req, env, st).response.status == CREATED <==>
      && env.fault == Healthy
      && req.password.Some?
      && Truthy(req.email) && Truthy(req.username)
      && FindById(st, env.newId).None?
      && FindByEmail(st, ToLower(req.email.value)).None?
      && SigningSecret(cfg).Some?
  {
  }

  /** A duplicate email (after lower-casing) is the 401 "Registration failed"
      with the store unchanged. */
  lemma RegisterDuplicateEmail(cfg: Config, req: RegisterRequest, env: Env, st: Store)
    requires Truthy(req.email)
    requires FindByEmail(st, ToLower(req.email.value)).Some?
    ensures Register(cfg, req, env, st) ==
      Outcome(Response(UNAUTHORIZED, ErrorMessage(RegistrationFailed)), st)
  {
  }

  /** The refresh token a successful registration returns is the whole of the
      new user's list, and it refreshes successfully while it is unexpired. */
  lemma RegisteredTokenRefreshes(cfg: Config, req: RegisterRequest, env: Env, st: Store, env2: Env)
    requires Valid(st)
    requires Register(cfg, req, env, st).response.status == CREATED
    requires env2.fault == Healthy
    requires env2.now < env.now + cfg.refreshTtl
    ensures var reg := Register(cfg, req, env, st);
      && FindById(reg.store, env.newId) == Some(|st|)
      && reg.store[|st|].refreshTokens == [reg.response.body.tokens.refreshToken]
      && RefreshToken(cfg, Some(reg.response.body.tokens.refreshToken), env2, reg.store).response.status == OK
  {
    var reg := Register(cfg, req, env, st);
    RegisterSucceedsIff(cfg, req, env, st);
    FindFindsOwnDocument(reg.store, |st|);
  }

  // ---------------------------------------------------------------------
  // login

  /** An unknown email and a wrong password give the identical 401 response
      and leave the store unchanged. */
  lemma LoginRejectsUnknownAndWrongAlike(cfg: Config, req: LoginRequest, env: Env, st: Store)
    requires Truthy(req.email) && Truthy(req.password)
    requires env.fault != FailsBeforeSave
    requires var found := FindByEmail(st, ToLower(req.email.value));
      found.None? || !Compare(req.password.value, st[found.value].password)
    ensures Login(cfg, req, env, st) ==
      Outcome(Response(UNAUTHORIZED, ErrorMessage(InvalidCredentials)), st)
  {
  }

  /** Login is 200 exactly when both fields are given, nothing throws, a
      signing secret is configured, and the lower-cased email finds a user
      whose digest accepts the password; the pair is the one issued for
      that user at that second. */
  lemma LoginSucceedsIff(cfg: Config, req: LoginRequest, env: Env, st: Store)
    ensures Login(cfg, req, env, st).response.status == OK <==>
      && Truthy(req.email) && Truthy(req.password)
      && env.fault == Healthy
      && SigningSecret(cfg).Some?
      && FindByEmail(st, ToLower(req.email.value)).Some?
      && Compare(req.password.value, st[FindByEmail(st, ToLower(req.email.value)).value].password)
    ensures Login(cfg, req, env, st).response.status == OK ==>
      var i := FindByEmail(st, ToLower(req.email.value)).value;
      Login(cfg, req, env, st).response.body == Issued(GenerateToken(SigningSecret(cfg).value, cfg, st[i].id, env.now))
  {
  }

  /** Every throw after the field check is 400 "Login failed", because
      `sendError` defaults to 400, and changes nothing: one in the lookup or
      bcrypt, and, once the credentials match, one in `jwt.sign` (no secret
      configured) or in `save()`. */
  lemma LoginThrowIsBadRequest(cfg: Config, req: LoginRequest, env: Env, st: Store)
    requires Truthy(req.email) && Truthy(req.password)
    requires
      || env.fault == FailsBeforeSave
      || (&& FindByEmail(st, ToLower(req.email.value)).Some?
          && Compare(req.password.value, st[FindByEmail(st, ToLower(req.email.value)).value].password)
          && (env.fault == FailsOnSave || SigningSecret(cfg).None?))
    ensures Login(cfg, req, env, st) == Outcome(Response(BAD_REQUEST, ErrorMessage(LoginFailed)), st)
  {
  }

  /** A successful login appends exactly one refresh token to the user's list,
      keeps every earlier one in place and touches no other user. */
  lemma LoginAppendsOneToken(cfg: Config, req: LoginRequest, env: Env, st: Store)
    requires Login(cfg, req, env, st).response.status == OK
    ensures var out := Login(cfg, req, env, st);
      var i := FindByEmail(st, ToLower(req.email.value)).value;
      && |out.store| == |st|
      && |out.store[i].refreshTokens| == |st[i].refreshTokens| + 1
      && out.store[i].refreshTokens[..|st[i].refreshTokens|] == st[i].refreshTokens
      && out.store[i].refreshTokens[|st[i].refreshTokens|] == out.response.body.tokens.refreshToken
      && (forall j :: 0 <= j < |st| && j != i ==> out.store[j] == st[j])
  {
    var out := Login(cfg, req, env, st);
    var i := FindByEmail(st, ToLower(req.email.value)).value;
    assert out.store[i].refreshTokens == st[i].refreshTokens + [out.response.body.tokens.refreshToken];
  }

  /** Two logins of the same user in the same clock second receive the same
      pair, and the list stores that refresh token twice. */
  lemma SameSecondLoginsStoreDuplicates(cfg: Config, req: LoginRequest, env: Env, st: Store)
    requires Login(cfg, req, env, st).response.status == OK
    ensures var first := Login(cfg, req, env, st);
      var second := Login(cfg, req, env, first.store);
      var i := FindByEmail(st, ToLower(req.email.value)).value;
      var r := first.response.body.tokens.refreshToken;
      && second.response == first.response
      && second.store[i].refreshTokens == st[i].refreshTokens + [r, r]
  {
    var first := Login(cfg, req, env, st);
    var i := FindByEmail(st, ToLower(req.email.value)).value;
    var r := first.response.body.tokens.refreshToken;
    LookupsIgnoreRefreshTokens(st, i, st[i].refreshTokens + [r], "", ToLower(req.email.value));
    assert first.store[i].password == st[i].password;
    var second := Login(cfg, req, env, first.store);
    assert second.store[i].refreshTokens == (st[i].refreshTokens + [r]) + [r];
  }

  // ---------------------------------------------------------------------
  // refreshToken

  /** A token that does not verify (wrong secret, expired, forged, or no
      secret configured) is 401 with the store unchanged. */
  lemma RefreshUnverifiedChangesNothing(cfg: Config, t: Token, env: Env, st: Store)
    requires t != Forged("")
    requires SigningSecret(cfg).None? || Verify(t, SigningSecret(cfg).value, env.now).None?
    ensures RefreshToken(cfg, Some(t), env, st) == InvalidRefresh(st)
  {
  }

  /** A verified token whose `userId` names no stored user is 401 with the
      store unchanged. */
  lemma RefreshUnknownUserChangesNothing(cfg: Config, t: Token, env: Env, st: Store)
    requires t.Signed? && SigningSecret(cfg).Some?
    requires Verify(t, SigningSecret(cfg).value, env.now).Some?
    requires t.claims.userId.None? || FindById(st, t.claims.userId.value).None?
    ensures RefreshToken(cfg, Some(t), env, st) == InvalidRefresh(st)
  {
  }

  /** Any throw while handling a presented token (the lookup, or the `save()`
      of either the revoked or the rotated list) is 401 "Invalid refresh
      token" with nothing saved: in particular a failed save during reuse
      detection leaves the list intact. */
  lemma RefreshThrowIsUnauthorized(cfg: Config, t: Token, env: Env, st: Store)
    requires env.fault != Healthy && t != Forged("")
    ensures RefreshToken(cfg, Some(t), env, st) == InvalidRefresh(st)
  {
  }

  /** Reuse detection: a verified token that is not in its user's list
      empties that user's whole list and is 401. */
  lemma ReuseRevokesAllSessions(cfg: Config, t: Token, env: Env, st: Store, i: nat)
    requires env.fault == Healthy
    requires t.Signed? && SigningSecret(cfg).Some?
    requires Verify(t, SigningSecret(cfg).value, env.now).Some?
    requires t.claims.userId.Some? && FindById(st, t.claims.userId.value) == Some(i)
    requires t !in st[i].refreshTokens
    ensures RefreshToken(cfg, Some(t), env, st) == InvalidRefresh(SetRefreshTokens(st, i, []))
  {
  }

  /** Rotation: a verified token in its user's list is 200 with a new pair;
      the new list is the old list plus the new refresh token, with every
      copy of the presented token removed and every other token kept with
      its multiplicity. */
  lemma RotationKeepsOtherTokens(cfg: Config, t: Token, env: Env, st: Store, i: nat)
    requires env.fault == Healthy
    requires t.Signed? && SigningSecret(cfg).Some?
    requires Verify(t, SigningSecret(cfg).value, env.now).Some?
    requires t.claims.userId.Some? && FindById(st, t.claims.userId.value) == Some(i)
    requires t in st[i].refreshTokens
    ensures var out := RefreshToken(cfg, Some(t), env, st);
      var issued := out.response.body.tokens.refreshToken;
      && out.response.status == OK
      && issued == GenerateToken(SigningSecret(cfg).value, cfg, st[i].id, env.now).refreshToken
      && t !in out.store[i].refreshTokens
      && (issued != t ==> multiset(out.store[i].refreshTokens) == multiset(st[i].refreshTokens)[t := 0] + multiset{issued})
      && (issued == t ==> multiset(out.store[i].refreshTokens) == multiset(st[i].refreshTokens)[t := 0])
  {
    var out := RefreshToken(cfg, Some(t), env, st);
    var issued := out.response.body.tokens.refreshToken;
    assert multiset(st[i].refreshTokens + [issued]) == multiset(st[i].refreshTokens) + multiset{issued};
  }

  /** The same-second edge: when the presented token equals the one the
      rotation issues (same user, same second), the filter removes the issued
      token too. The 200 response hands out a token the store does not hold,
      and presenting it afterwards revokes every session of the user. */
  lemma SameSecondRefreshDropsFreshToken(cfg: Config, env: Env, st: Store, i: nat, env2: Env)
    requires env.fault == Healthy && env2.fault == Healthy
    requires SigningSecret(cfg).Some?
    requires i < |st|
    requires Valid(st)
    requires cfg.refreshTtl > 0
    requires env2.now < env.now + cfg.refreshTtl
    requires GenerateToken(SigningSecret(cfg).value, cfg, st[i].id, env.now).refreshToken in st[i].refreshTokens
    ensures var t := GenerateToken(SigningSecret(cfg).value, cfg, st[i].id, env.now).refreshToken;
      var out := RefreshToken(cfg, Some(t), env, st);
      && out.response.status == OK
      && out.response.body.tokens.refreshToken == t
      && t !in out.store[i].refreshTokens
      && RefreshToken(cfg, Some(t), env2, out.store) == InvalidRefresh(SetRefreshTokens(out.store, i, []))
  {
    var secret := SigningSecret(cfg).value;
    var t := GenerateToken(secret, cfg, st[i].id, env.now).refreshToken;
    FindFindsOwnDocument(st, i);
    var out := RefreshToken(cfg, Some(t), env, st);
    LookupsIgnoreRefreshTokens(st, i, out.store[i].refreshTokens, st[i].id, "");
  }

  /** Replay, as in the double-use test: after a successful rotation of `t`
      into `r2`, presenting `t` again is 401 and empties the user's list, and
      presenting `r2` after that is 401 as well. */
  lemma ReplayRevokesRotatedSession(cfg: Config, t: Token, st: Store, i: nat,
                                                      env1: Env, env2: Env, env3: Env)
    requires env1.fault == Healthy && env2.fault == Healthy
    requires t.Signed? && SigningSecret(cfg).Some?
    requires Verify(t, SigningSecret(cfg).value, env1.now).Some?
    requires Verify(t, SigningSecret(cfg).value, env2.now).Some?
    requires t.claims.userId.Some? && FindById(st, t.claims.userId.value) == Some(i)
    requires t in st[i].refreshTokens
    ensures var out1 := RefreshToken(cfg, Some(t), env1, st);
      var r2 := out1.response.body.tokens.refreshToken;
      var out2 := RefreshToken(cfg, Some(t), env2, out1.store);
      var out3 := RefreshToken(cfg, Some(r2), env3, out2.store);
      && out1.response.status == OK
      && out2.response.status == UNAUTHORIZED
      && out2.store[i].refreshTokens == []
      && out3.response.status == UNAUTHORIZED
  {
    var uid := t.claims.userId.value;
    var out1 := RefreshToken(cfg, Some(t), env1, st);
    RotationKeepsOtherTokens(cfg, t, env1, st, i);
    LookupsIgnoreRefreshTokens(st, i, out1.store[i].refreshTokens, uid, "");
    ReuseRevokesAllSessions(cfg, t, env2, out1.store, i);
    var out2 := RefreshToken(cfg, Some(t), env2, out1.store);
    var r2 := out1.response.body.tokens.refreshToken;
    LookupsIgnoreRefreshTokens(out1.store, i, [], uid, "");
    RevokedOwnerRefreshFails(cfg, r2, env3, out2.store, i);
  }

  /** Once a user's list is empty, no token naming that user refreshes. */
  lemma RevokedOwnerRefreshFails(cfg: Config, t: Token, env: Env, st: Store, i: nat)
    requires t.Signed? && t.claims.userId.Some?
    requires FindById(st, t.claims.userId.value) == Some(i)
    requires st[i].refreshTokens == []
    ensures RefreshToken(cfg, Some(t), env, st).response.status == UNAUTHORIZED
  {
  }

  /** An access token presented for refresh is never in the list (while the
      two lifetimes differ), so it revokes all of the user's sessions. */
  lemma AccessTokenAtRefreshRevokes(cfg: Config, st: Store, i: nat, iat: int, env: Env)
    requires TokensOwned(cfg, st)
    requires cfg.accessTtl != cfg.refreshTtl
    requires SigningSecret(cfg).Some?
    requires Valid(st) && i < |st|
    requires env.fault == Healthy
    requires env.now < iat + cfg.accessTtl
    ensures var access := GenerateToken(SigningSecret(cfg).value, cfg, st[i].id, iat).token;
      RefreshToken(cfg, Some(access), env, st) == InvalidRefresh(SetRefreshTokens(st, i, []))
  {
    var access := GenerateToken(SigningSecret(cfg).value, cfg, st[i].id, iat).token;
    FindFindsOwnDocument(st, i);
  }

  // ---------------------------------------------------------------------
  // invariants

  /** Every transition keeps each stored refresh token owned by its user. */
  lemma RegisterKeepsTokensOwned(cfg: Config, req: RegisterRequest, env: Env, st: Store)
    requires TokensOwned(cfg, st)
    ensures TokensOwned(cfg, Register(cfg, req, env, st).store)
  {
    var out := Register(cfg, req, env, st);
    forall j, k | 0 <= j < |out.store| && 0 <= k < |out.store[j].refreshTokens|
      ensures IsRefreshTokenOf(cfg, out.store[j].refreshTokens[k], out.store[j].id)
    {
      if j < |st| {
        assert out.store[j] == out.store[..|st|][j] == st[j];
      }
    }
  }

  lemma LoginKeepsTokensOwned(cfg: Config, req: LoginRequest, env: Env, st: Store)
    requires TokensOwned(cfg, st)
    ensures TokensOwned(cfg, Login(cfg, req, env, st).store)
  {
    var out := Login(cfg, req, env, st);
    if out.response.status == OK {
      var i := FindByEmail(st, ToLower(req.email.value)).value;
      forall j, k | 0 <= j < |out.store| && 0 <= k < |out.store[j].refreshTokens|
        ensures IsRefreshTokenOf(cfg, out.store[j].refreshTokens[k], out.store[j].id)
      {
        if j == i && k == |st[i].refreshTokens| {
        } else if j == i {
          assert out.store[j].refreshTokens[k] == st[i].refreshTokens[k];
        }
      }
    }
  }

  lemma RefreshKeepsTokensOwned(cfg: Config, t: Option<Token>, env: Env, st: Store)
    requires TokensOwned(cfg, st)
    ensures TokensOwned(cfg, RefreshToken(cfg, t, env, st).store)
  {
    var out := RefreshToken(cfg, t, env, st);
    if out.store != st {
      var i := FindById(st, t.value.claims.userId.value).value;
      forall j, k | 0 <= j < |out.store| && 0 <= k < |out.store[j].refreshTokens|
        ensures IsRefreshTokenOf(cfg, out.store[j].refreshTokens[k], out.store[j].id)
      {
        if j == i && out.response.status == OK {
          var issued := out.response.body.tokens.refreshToken;
          var y := out.store[j].refreshTokens[k];
          assert y in st[i].refreshTokens + [issued];
          if y in st[i].refreshTokens {
            var m :| 0 <= m < |st[i].refreshTokens| && st[i].refreshTokens[m] == y;
            assert IsRefreshTokenOf(cfg, st[i].refreshTokens[m], st[i].id);
          }
        }
      }
    }
  }
}
