/**
 * Password hashing and access-token issuing.
 *
 * bcrypt (through passlib) and JWT signing (through python-jose) are
 * foreign code. They are modelled as arbitrary functions collected in a
 * `Crypto` value; everything the model knows about them is stated by
 * `HashLawful` and `JwtLawful`, which the lemmas that need them require.
 */
module Security {
  import opened Wrappers
  import opened Values
  import Settings

  /** The payload of a JSON Web Token (RFC 7519): claim name to value. */
  type Claims = map<string, Value>

  /** The foreign cryptography the core calls. */
  datatype Crypto = Crypto(
    /** `pwd_context.hash(password)` */
    hash: string -> string,
    /** `pwd_context.verify(plain, hashed)` */
    verify: (string, string) -> bool,
    /** `jwt.encode(claims, key, algorithm=alg)` */
    encode: (Claims, string, string) -> string,
    /** `jwt.decode(token, key, algorithms=[alg])` at time `now`; `None` stands for a raised `JWTError` */
    decode: (string, string, string, int) -> Option<Claims>)

  /**
   * A hash verifies against its own plaintext and against no other. This is
   * the ideal hash: bcrypt itself reads only the first 72 bytes of a password.
   */
  ghost predicate HashLawful(c: Crypto) {
    && (forall p :: c.verify(p, c.hash(p)))
    && (forall p, q :: p != q ==> !c.verify(p, c.hash(q)))
  }

  /** The `exp` claim, when it is a number. */
  function ExpClaim(claims: Claims): Option<int> {
    if "exp" in claims && claims["exp"].Int? then Some(claims["exp"].i) else None
  }

  /**
   * A token encoded with a key and algorithm decodes, with the same key and
   * algorithm, to its claims until the `exp` instant has passed, and fails after.
   */
  ghost predicate JwtLawful(c: Crypto) {
    forall claims, key, alg, now ::
      ExpClaim(claims).Some? ==>
        c.decode(c.encode(claims, key, alg), key, alg, now)
          == (if now <= ExpClaim(claims).value then Some(claims) else None)
  }

  ghost predicate Lawful(c: Crypto) {
    HashLawful(c) && JwtLawful(c)
  }

  /** `verify_password(plain_password, hashed_password)`. */
  function VerifyPassword(c: Crypto, plainPassword: string, hashedPassword: string): (ok: bool)
    ensures HashLawful(c) && hashedPassword == c.hash(plainPassword) ==> ok
    ensures HashLawful(c) && ok ==> forall q :: hashedPassword == c.hash(q) ==> q == plainPassword
  {
    c.verify(plainPassword, hashedPassword)
  }

  /** `get_password_hash(password)`. */
  function GetPasswordHash(c: Crypto, password: string): (h: string)
    ensures HashLawful(c) ==> c.verify(password, h)
    ensures HashLawful(c) ==> forall other :: other != password ==> !c.verify(other, h)
  {
    c.hash(password)
  }

  /** A stored hash accepts the password it was made from. */
  lemma VerifyOwnHash(c: Crypto, password: string)
    requires HashLawful(c)
    ensures VerifyPassword(c, password, GetPasswordHash(c, password))
  {
  }

  /** A stored hash rejects every other password. */
  lemma VerifyOtherPassword(c: Crypto, password: string, other: string)
    requires HashLawful(c)
    requires other != password
    ensures !VerifyPassword(c, other, GetPasswordHash(c, password))
  {
  }

  /** Token lifetime in seconds when no delta is given. */
  const DefaultLifetime: int := Settings.AccessTokenExpireMinutes * 60

  /**
   * The expiry of a token issued at `now`. `delta` is `expires_delta` in
   * seconds; a missing or zero-length delta is falsy and selects the default.
   */
  function ExpiresAt(now: int, delta: Option<int>): (exp: int)
    ensures delta.Some? && delta.value != 0 ==> exp == now + delta.value
    ensures delta.None? || delta.value == 0 ==> exp == now + 1800
  {
    if delta.Some? && delta.value != 0 then now + delta.value else now + DefaultLifetime
  }

  /** The payload `{"exp": expire, "sub": str(email)}`. */
  function AccessTokenClaims(email: string, delta: Option<int>, now: int): (claims: Claims)
    ensures claims.Keys == {"exp", "sub"}
    ensures claims["sub"] == Str(email)
    ensures ExpClaim(claims) == Some(ExpiresAt(now, delta))
  {
    map["exp" := Int(ExpiresAt(now, delta)), "sub" := Str(email)]
  }

  /**
   * `create_access_token(email, expires_delta)`, signed with `secretKey` and
   * HS256: the token decodes to its payload until it expires and fails afterwards.
   */
  function CreateAccessToken(c: Crypto, secretKey: string, email: string, delta: Option<int>, now: int): (token: string)
    ensures JwtLawful(c) ==>
      forall later :: (c.decode(token, secretKey, Settings.Algorithm, later)
        == if later <= ExpiresAt(now, delta) then Some(AccessTokenClaims(email, delta, now)) else None)
  {
    c.encode(AccessTokenClaims(email, delta, now), secretKey, Settings.Algorithm)
  }

  const ExamplePrefix: string := "$2b$"

  /** A bcrypt stand-in (prefix the plaintext) shows that `HashLawful` can be met. */
  lemma HashLawfulIsSatisfiable(encode: (Claims, string, string) -> string, decode: (string, string, string, int) -> Option<Claims>)
    ensures HashLawful(Crypto(p => ExamplePrefix + p, (p, h) => h == ExamplePrefix + p, encode, decode))
  {
    forall p, q | p != q ensures ExamplePrefix + q != ExamplePrefix + p {
      assert (ExamplePrefix + q)[4..] == q;
      assert (ExamplePrefix + p)[4..] == p;
    }
  }
}
