/**
 * The login endpoint (`api/v1/endpoints/auth.py`), in the manner of the
 * resource owner password credentials grant (RFC 6749, section 4.3): the
 * form's username is the email, and a verified password earns a bearer token.
 */
module Auth {
  import opened Wrappers
  import opened Values
  import opened Models
  import Settings
  import opened Security
  import opened Crud
  import opened Http
  import opened Deps

  /** `Token` (`schemas/token.py`). */
  datatype Token = Token(access_token: string, token_type: string := "bearer", expires_in: int)

  /** `login(form_data, db)` at time `now`. */
  function Login(c: Crypto, secretKey: string, username: string, password: string, db: UserTable, now: int)
    : (r: Result<Token, HttpError>)
    reads db
    requires db.Valid()
    ensures var user := GetUserByEmail(username, db);
      r.Err? <==> user.None? || !VerifyPassword(c, password, user.value.hashed_password)
    ensures GetUserByEmail(username, db).None? ==> r == Err(LoginError)
    ensures r.Err? ==> r.error == LoginError
    ensures r.Ok? ==>
      && r.value.token_type == "bearer"
      && r.value.expires_in == Settings.AccessTokenExpireMinutes * 60
      && r.value.access_token == CreateAccessToken(c, secretKey, username, None, now)
  {
    var user := GetUserByEmail(username, db);
    if user.None? || !VerifyPassword(c, password, user.value.hashed_password) then Err(LoginError)
    else
      Ok(Token(
        access_token := CreateAccessToken(c, secretKey, user.value.email, None, now),
        token_type := "bearer",
        expires_in := Settings.AccessTokenExpireMinutes * 60))
  }

  /** The right password for a stored user logs in, whether or not the user is active. */
  lemma LoginWithOwnPassword(c: Crypto, secretKey: string, db: UserTable, id: Uuid, password: string, now: int)
    requires HashLawful(c) && db.Valid()
    requires id in db.users && db.users[id].hashed_password == GetPasswordHash(c, password)
    ensures Login(c, secretKey, db.users[id].email, password, db, now).Ok?
  {
    GetUserByEmailFinds(db.users[id].email, db);
    VerifyOwnHash(c, password);
  }

  /** Any other password is refused with the same 401 as an unknown email. */
  lemma LoginWithOtherPassword(c: Crypto, secretKey: string, db: UserTable, id: Uuid, password: string, other: string, now: int)
    requires HashLawful(c) && db.Valid()
    requires id in db.users && db.users[id].hashed_password == GetPasswordHash(c, password)
    requires other != password
    ensures Login(c, secretKey, db.users[id].email, other, db, now) == Err(LoginError)
  {
    GetUserByEmailFinds(db.users[id].email, db);
    VerifyOtherPassword(c, password, other);
  }

  /**
   * The password check is not reached when no user has the email: logins
   * with two password verifiers that differ arbitrarily fail alike.
   */
  lemma UnknownEmailSkipsVerify(c: Crypto, verify': (string, string) -> bool, secretKey: string,
                                username: string, password: string, db: UserTable, now: int)
    requires db.Valid()
    requires !EmailTaken(db.users, username, None)
    ensures Login(c, secretKey, username, password, db, now)
         == Login(c.(verify := verify'), secretKey, username, password, db, now)
         == Err(LoginError)
  {
    GetUserByEmailFinds(username, db);
  }

  /**
   * The token a login returns authenticates the same user for
   * `expires_in` seconds and no longer, provided the email is not empty.
   */
  lemma LoginTokenResolves(c: Crypto, secretKey: string, db: UserTable, id: Uuid, password: string, now: int, later: int)
    requires Lawful(c) && db.Valid()
    requires id in db.users && db.users[id].hashed_password == GetPasswordHash(c, password)
    requires db.users[id].email != ""
    ensures var t := Login(c, secretKey, db.users[id].email, password, db, now);
      t.Ok? && GetCurrentUser(c, secretKey, t.value.access_token, db, later)
        == if later <= now + t.value.expires_in then Ok(db.users[id]) else Err(CredentialsError)
  {
    LoginWithOwnPassword(c, secretKey, db, id, password, now);
    IssuedTokenResolves(c, secretKey, db, id, None, now, later);
  }
}
