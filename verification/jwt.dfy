/** An abstract model of the HS256 JSON Web Tokens the core signs and
    verifies. A token value stands for its compact string: signing is
    deterministic, so two tokens are the same string exactly when they carry
    the same claims, secret, issue second and expiry second. */
module Jwt {
  import opened Wrappers

  /** The payload claims the core reads. Tokens signed by the auth controller
      carry `userId`; the auth middleware reads `_id`. */
  datatype Claims = Claims(userId: Option<string>, id: Option<string>)

  datatype Token =
      /** A well-formed token: claims, the secret it was signed with, the
          `iat` second and the `exp` second. */
    | Signed(claims: Claims, secret: string, iat: int, exp: int)
      /** Any other string: malformed, truncated or tampered with. */
    | Forged(raw: string)

  /** `jwt.sign(claims, secret, { expiresIn })` at clock second `now`. The
      library refuses an empty secret, so callers only sign with a non-empty one. */
  function Sign(claims: Claims, secret: string, now: int, expiresIn: int): (t: Token)
    requires secret != ""
    ensures t.Signed?
  {
    Signed(claims, secret, now, now + expiresIn)
  }

  /** `jwt.verify(t, secret)` at clock second `now`: the claims when the
      signature matches a non-empty `secret` and the token has not expired
      (the library rejects once `now >= exp`); `None` stands for the thrown error. */
  function Verify(t: Token, secret: string, now: int): (r: Option<Claims>)
    ensures r.Some? ==> t.Signed?
  {
    if t.Signed? && secret != "" && t.secret == secret && now < t.exp then Some(t.claims) else None
  }

  /** A signed token verifies under its own secret exactly until it expires,
      and under no other secret. */
  lemma SignThenVerify(c: Claims, secret: string, iat: int, ttl: int, key: string, now: int)
    requires secret != ""
    ensures Verify(Sign(c, secret, iat, ttl), key, now) == Some(c) <==> key == secret && now < iat + ttl
    ensures Verify(Sign(c, secret, iat, ttl), key, now).None? <==> key != secret || now >= iat + ttl
  {
    var t := Sign(c, secret, iat, ttl);
    assert t == Signed(c, secret, iat, iat + ttl);
  }

  /** Two signatures give the same token string exactly when they agree on
      claims, secret, issue second and lifetime. */
  lemma SignInjective(c1: Claims, s1: string, iat1: int, ttl1: int,
                                         c2: Claims, s2: string, iat2: int, ttl2: int)
    requires s1 != "" && s2 != ""
    ensures Sign(c1, s1, iat1, ttl1) == Sign(c2, s2, iat2, ttl2) <==>
            c1 == c2 && s1 == s2 && iat1 == iat2 && ttl1 == ttl2
  {
    assert Sign(c1, s1, iat1, ttl1) == Signed(c1, s1, iat1, iat1 + ttl1);
    assert Sign(c2, s2, iat2, ttl2) == Signed(c2, s2, iat2, iat2 + ttl2);
  }
}
