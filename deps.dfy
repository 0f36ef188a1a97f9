/**
 * Request dependencies (`core/deps.py`): reading the subject of a bearer
 * token and resolving it to the stored user.
 */
module Deps {
  import opened Wrappers
  import opened Values
  import opened Models
  import Settings
  import opened Security
  import opened Crud
  import opened Http

  /** `decode_token(token)`: the `sub` claim when the token decodes and the claim is a string. */
  function DecodeToken(c: Crypto, secretKey: string, token: string, now: int): (email: Option<string>)
    ensures c.decode(token, secretKey, Settings.Algorithm, now).None? ==> email.None?
    ensures email.Some? <==>
      var p := c.decode(token, secretKey, Settings.Algorithm, now);
      p.Some? && "sub" in p.value && p.value["sub"].Str?
    ensures email.Some? ==> c.decode(token, secretKey, Settings.Algorithm, now).value["sub"] == Str(email.value)
  {
    match c.decode(token, secretKey, Settings.Algorithm, now)
    case None => None
    case Some(payload) => if "sub" in payload && payload["sub"].Str? then Some(payload["sub"].s) else None
  }

  /** A token issued for an email yields that email until it expires, and nothing afterwards. */
  lemma DecodeIssuedTokenSubject(c: Crypto, secretKey: string, email: string, delta: Option<int>, issued: int, now: int)
    requires JwtLawful(c)
    ensures DecodeToken(c, secretKey, CreateAccessToken(c, secretKey, email, delta, issued), now)
         == if now <= ExpiresAt(issued, delta) then Some(email) else None
  {
  }

  /**
   * The first row in table order with this email: the query
   * `filter(User.email == email).first()`.
   */
  function FirstWithEmail(users: map<Uuid, User>, order: seq<Uuid>, email: string): (r: Option<User>)
    requires forall i :: 0 <= i < |order| ==> order[i] in users
    ensures r.None? <==> forall i :: 0 <= i < |order| ==> users[order[i]].email != email
    ensures r.Some? ==> r.value.email == email && exists i :: FirstWithEmailAt(users, order, email, i) && users[order[i]] == r.value
  {
    if order == [] then None
    else if users[order[0]].email == email then
      assert FirstWithEmailAt(users, order, email, 0);
      Some(users[order[0]])
    else
      var r := FirstWithEmail(users, order[1..], email);
      assert forall i :: 0 <= i < |order[1..]| ==> order[1..][i] == order[i + 1];
      assert r.Some? ==> exists i :: FirstWithEmailAt(users, order, email, i) && users[order[i]] == r.value by {
        if r.Some? {
          var i :| FirstWithEmailAt(users, order[1..], email, i) && users[order[1..][i]] == r.value;
          FirstWithEmailShift(users, order, email, i);
          assert users[order[i + 1]] == r.value;
        }
      }
      r
  }

  /** Position `i` of `order` holds a row with the email, and no earlier position does. */
  predicate FirstWithEmailAt(users: map<Uuid, User>, order: seq<Uuid>, email: string, i: int)
    requires forall k :: 0 <= k < |order| ==> order[k] in users
  {
    && 0 <= i < |order|
    && users[order[i]].email == email
    && forall j :: 0 <= j < i ==> users[order[j]].email != email
  }

  /** The first match in the tail, when the head does not match, is the first match one position later. */
  lemma FirstWithEmailShift(users: map<Uuid, User>, order: seq<Uuid>, email: string, i: int)
    requires forall k :: 0 <= k < |order| ==> order[k] in users
    requires order != [] && users[order[0]].email != email
    requires FirstWithEmailAt(users, order[1..], email, i)
    ensures FirstWithEmailAt(users, order, email, i + 1)
  {
    forall j | 0 <= j < i + 1 ensures users[order[j]].email != email {
      if j > 0 {
        assert order[j] == order[1..][j - 1];
      }
    }
  }

  /** `get_user_by_email(email, db)`. */
  function GetUserByEmail(email: string, db: UserTable): (r: Option<User>)
    reads db
    requires db.Valid()
    ensures r.Some? ==> r.value.email == email && r.value in db.users.Values
  {
    var r := FirstWithEmail(db.users, db.order, email);
    assert r.Some? ==> r.value in db.users.Values by {
      if r.Some? {
        var i :| 0 <= i < |db.order| && db.users[db.order[i]] == r.value;
      }
    }
    r
  }

  /** The lookup finds a row exactly when some row has the email, and since emails are unique it is that row. */
  lemma GetUserByEmailFinds(email: string, db: UserTable)
    requires db.Valid()
    ensures GetUserByEmail(email, db).Some? <==> EmailTaken(db.users, email, None)
    ensures forall id :: id in db.users && db.users[id].email == email ==> GetUserByEmail(email, db) == Some(db.users[id])
  {
    var r := GetUserByEmail(email, db);
    if EmailTaken(db.users, email, None) {
      var k :| k in db.users && db.users[k].email == email;
      var i :| 0 <= i < |db.order| && db.order[i] == k;
      assert db.users[db.order[i]].email == email;
    }
    if r.Some? {
      var i :| 0 <= i < |db.order| && db.users[db.order[i]] == r.value;
      assert db.order[i] in db.users;
      forall id | id in db.users && db.users[id].email == email ensures r == Some(db.users[id]) {
        assert db.users[db.order[i]].email == db.users[id].email;
      }
    }
  }

  /**
   * `get_current_user(token, db)`: the stored user the token's subject
   * names, or 401 when there is no subject, an empty one, or no such user.
   */
  function GetCurrentUser(c: Crypto, secretKey: string, token: string, db: UserTable, now: int): (r: Result<User, HttpError>)
    reads db
    requires db.Valid()
    ensures r.Err? ==> r.error == CredentialsError
    ensures var email := DecodeToken(c, secretKey, token, now);
      email.None? || email == Some("") ==> r.Err?
    ensures var email := DecodeToken(c, secretKey, token, now);
      email.Some? && email.value != "" ==> (r.Ok? <==> EmailTaken(db.users, email.value, None))
    ensures r.Ok? ==> DecodeToken(c, secretKey, token, now) == Some(r.value.email)
    ensures r.Ok? ==> r.value.id in db.users && db.users[r.value.id] == r.value
  {
    var email := DecodeToken(c, secretKey, token, now);
    if email.None? || email.value == "" then Err(CredentialsError)
    else
      var user := GetUserByEmail(email.value, db);
      GetUserByEmailFinds(email.value, db);
      if user.None? then Err(CredentialsError) else Ok(user.value)
  }

  /**
   * A token issued for a stored user's email resolves to that user until it
   * expires and is refused afterwards. Whether the user is active plays no part.
   */
  lemma IssuedTokenResolves(c: Crypto, secretKey: string, db: UserTable, id: Uuid, delta: Option<int>, issued: int, now: int)
    requires JwtLawful(c) && db.Valid()
    requires id in db.users && db.users[id].email != ""
    ensures var token := CreateAccessToken(c, secretKey, db.users[id].email, delta, issued);
      GetCurrentUser(c, secretKey, token, db, now)
        == if now <= ExpiresAt(issued, delta) then Ok(db.users[id]) else Err(CredentialsError)
  {
    DecodeIssuedTokenSubject(c, secretKey, db.users[id].email, delta, issued, now);
    GetUserByEmailFinds(db.users[id].email, db);
  }

  /** A user whose email is empty can be issued a token, but it never resolves. */
  lemma EmptySubjectNeverResolves(c: Crypto, secretKey: string, db: UserTable, delta: Option<int>, issued: int, now: int)
    requires JwtLawful(c) && db.Valid()
    ensures GetCurrentUser(c, secretKey, CreateAccessToken(c, secretKey, "", delta, issued), db, now) == Err(CredentialsError)
  {
    DecodeIssuedTokenSubject(c, secretKey, "", delta, issued, now);
  }
}
