/**
 * The user endpoints (`api/v1/endpoints/users.py`): registration, reading
 * and updating one's own profile. They write to the table directly rather
 * than through `CRUDBase`, and follow their own rules: registration copies a
 * fixed set of fields, and a profile update treats `None` as "leave as is".
 */
module UserEndpoints {
  import opened Wrappers
  import opened Values
  import opened Models
  import opened Schemas
  import opened Security
  import opened Crud
  import opened Http
  import opened Deps

  /**
   * The row `create_user` stores: the payload's email, names and password
   * hash, the generated id, the same instant in both stamps, and the column
   * defaults for the two flags whatever the payload says.
   */
  function Registered(userIn: UserCreate, c: Crypto, freshId: Uuid, now: int): (u: User)
    ensures u.id == freshId && u.email == userIn.email
    ensures u.first_name == userIn.first_name && u.last_name == userIn.last_name
    ensures u.hashed_password == GetPasswordHash(c, userIn.password)
    ensures u.is_active && !u.is_superuser && u.created_at == now && u.updated_at == now
    ensures HashLawful(c) ==> VerifyPassword(c, userIn.password, u.hashed_password)
  {
    User(freshId, userIn.email, GetPasswordHash(c, userIn.password), userIn.first_name, userIn.last_name,
         true, false, now, now)
  }

  /** The payload's flags play no part in registration. */
  lemma RegisteredIgnoresFlags(userIn: UserCreate, c: Crypto, freshId: Uuid, now: int, active: bool, superuser: bool)
    ensures Registered(userIn.(is_active := active, is_superuser := superuser), c, freshId, now)
         == Registered(userIn, c, freshId, now)
    ensures Registered(userIn, c, freshId, now).is_active && !Registered(userIn, c, freshId, now).is_superuser
  {
  }

  /** The registered row stores the password only as a hash the password verifies against. */
  lemma RegisteredPasswordVerifies(userIn: UserCreate, c: Crypto, freshId: Uuid, now: int)
    requires HashLawful(c)
    ensures VerifyPassword(c, userIn.password, Registered(userIn, c, freshId, now).hashed_password)
    ensures forall other :: other != userIn.password ==>
      !VerifyPassword(c, other, Registered(userIn, c, freshId, now).hashed_password)
  {
    forall other | other != userIn.password
      ensures !VerifyPassword(c, other, Registered(userIn, c, freshId, now).hashed_password)
    {
      VerifyOtherPassword(c, userIn.password, other);
    }
  }

  /** The attributes of the new instance are a storable row: the registered one. */
  lemma RegistrationStorable(userIn: UserCreate, c: Crypto, freshId: Uuid, initNow: int, now: int, attrs: Attrs)
    requires attrs == Initialized(map[], initNow)["email" := Str(userIn.email)]
      ["hashed_password" := Str(GetPasswordHash(c, userIn.password))]
      ["first_name" := FromOptStr(userIn.first_name)]["last_name" := FromOptStr(userIn.last_name)]
      ["created_at" := Int(now)]["updated_at" := Int(now)]
    ensures ToUser(WithInsertDefaults(attrs, freshId)) == Some(Registered(userIn, c, freshId, now))
  {
    assert attrs.Keys == {"updated_at", "email", "hashed_password", "first_name", "last_name", "created_at"};
    assert attrs["email"] == Str(userIn.email) && attrs["hashed_password"] == Str(GetPasswordHash(c, userIn.password));
    assert attrs["first_name"] == FromOptStr(userIn.first_name) && attrs["last_name"] == FromOptStr(userIn.last_name);
    assert attrs["created_at"] == Int(now) && attrs["updated_at"] == Int(now);
    assert "id" !in attrs && "is_active" !in attrs && "is_superuser" !in attrs;
    var w := WithInsertDefaults(attrs, freshId);
    assert w["id"] == Id(freshId) && w["is_active"] == Bool(true) && w["is_superuser"] == Bool(false);
    assert w["email"] == Str(userIn.email) && w["hashed_password"] == Str(GetPasswordHash(c, userIn.password));
    assert w["first_name"] == FromOptStr(userIn.first_name) && w["last_name"] == FromOptStr(userIn.last_name);
    assert w["created_at"] == Int(now) && w["updated_at"] == Int(now);
    ToUserOfColumnValues(w, Registered(userIn, c, freshId, now));
  }

  /**
   * `create_user(user_in)`: refused with 400 when the email is taken,
   * otherwise the registered row is added. `initNow` is the reading the
   * constructor takes and `now` the one the endpoint takes.
   */
  method CreateUser(db: UserTable, userIn: UserCreate, c: Crypto, freshId: Uuid, initNow: int, now: int)
    returns (r: Result<UserRead, HttpError>)
    requires db.Valid() && freshId !in db.users
    modifies db
    ensures db.Valid()
    ensures EmailTaken(old(db.users), userIn.email, None) ==>
      r == Err(EmailAlreadyRegistered) && db.users == old(db.users) && db.order == old(db.order)
    ensures !EmailTaken(old(db.users), userIn.email, None) ==>
      var u := Registered(userIn, c, freshId, now);
      r == Ok(ToRead(u)) && db.users == old(db.users)[freshId := u] && db.order == old(db.order) + [freshId]
  {
    var existing := GetUserByEmail(userIn.email, db);
    GetUserByEmailFinds(userIn.email, db);
    if existing.Some? {
      return Err(EmailAlreadyRegistered);
    }
    var user := Construct(map[], initNow);
    user := user["email" := Str(userIn.email)];
    user := user["hashed_password" := Str(GetPasswordHash(c, userIn.password))];
    user := user["first_name" := FromOptStr(userIn.first_name)];
    user := user["last_name" := FromOptStr(userIn.last_name)];
    user := user["created_at" := Int(now)];
    user := user["updated_at" := Int(now)];
    RegistrationStorable(userIn, c, freshId, initNow, now, user);
    var stored := db.Insert(user, freshId);
    r := Ok(ToRead(stored.value));
  }

  /** `read_user_me(current_user)`: the authenticated user's public projection. */
  function ReadUserMe(currentUser: User): (r: UserRead)
    ensures ReadBody(r).Keys == Columns - {"hashed_password"}
    ensures forall k :: k in ReadBody(r) ==> ReadBody(r)[k] == Dict(currentUser)[k]
  {
    ToRead(currentUser)
  }

  /**
   * The profile `update_user_me` saves: the password (hashed), email and
   * names that are not `None`, and `now` as `updated_at`.
   */
  function ProfileUpdated(u: User, userIn: UserUpdate, c: Crypto, now: int): (r: User)
    ensures r.id == u.id && r.created_at == u.created_at
    ensures r.is_active == u.is_active && r.is_superuser == u.is_superuser
    ensures r.updated_at == now
    ensures r.hashed_password
         == if userIn.password.Get().Some? then GetPasswordHash(c, userIn.password.Get().value) else u.hashed_password
    ensures r.email == if userIn.email.Get().Some? then userIn.email.Get().value else u.email
    ensures r.first_name == if userIn.first_name.Get().Some? then userIn.first_name.Get() else u.first_name
    ensures r.last_name == if userIn.last_name.Get().Some? then userIn.last_name.Get() else u.last_name
  {
    var p := userIn.password.Get();
    var e := userIn.email.Get();
    var f := userIn.first_name.Get();
    var l := userIn.last_name.Get();
    u.(hashed_password := if p.Some? then GetPasswordHash(c, p.value) else u.hashed_password,
       email := if e.Some? then e.value else u.email,
       first_name := if f.Some? then f else u.first_name,
       last_name := if l.Some? then l else u.last_name,
       updated_at := now)
  }

  /**
   * `update_user_me(user_in, current_user)`: the fields are assigned one
   * by one, `updated_at` is stamped, and the commit fails (an unhandled
   * integrity error) when another user has the new email.
   */
  method UpdateUserMe(db: UserTable, currentUser: User, userIn: UserUpdate, c: Crypto, now: int)
    returns (r: Result<UserRead, HttpError>)
    requires db.Valid()
    requires currentUser.id in db.users && db.users[currentUser.id] == currentUser
    modifies db
    ensures db.Valid()
    ensures var u := ProfileUpdated(currentUser, userIn, c, now);
      if EmailTaken(old(db.users), u.email, Some(currentUser.id)) then
        r == Err(ServerError) && db.users == old(db.users) && db.order == old(db.order)
      else
        r == Ok(ToRead(u)) && db.users == old(db.users)[currentUser.id := u] && db.order == old(db.order)
  {
    var user := currentUser;
    if userIn.password.Get().Some? {
      user := user.(hashed_password := GetPasswordHash(c, userIn.password.Get().value));
    }
    if userIn.email.Get().Some? {
      user := user.(email := userIn.email.Get().value);
    }
    if userIn.first_name.Get().Some? {
      user := user.(first_name := userIn.first_name.Get());
    }
    if userIn.last_name.Get().Some? {
      user := user.(last_name := userIn.last_name.Get());
    }
    user := user.(updated_at := now);
    assert user == ProfileUpdated(currentUser, userIn, c, now);
    SaveInPlace(db.users, db.order, currentUser.id, user);
    var saved := db.Save(currentUser.id, user);
    if saved.Err? {
      return Err(ServerError);
    }
    r := Ok(ToRead(saved.value));
  }

  /** A `UserUpdate` the two update paths read alike: no explicit `None`, no flags. */
  predicate NoExplicitNone(userIn: UserUpdate) {
    && userIn.email != Set(None) && userIn.first_name != Set(None) && userIn.last_name != Set(None)
    && userIn.password != Set(None) && userIn.is_active.Unset? && userIn.is_superuser.Unset?
  }

  /**
   * Where the schema holds no explicit `None` and no flag, the generic
   * `CRUDBase.update` saves the very profile the endpoint does.
   */
  lemma ProfileUpdateAgreesWithCrud(users: map<Uuid, User>, id: Uuid, userIn: UserUpdate, c: Crypto, now: int)
    requires id in users
    requires NoExplicitNone(userIn)
    ensures Updated(users, id, Schema(userIn), c, now) == Saved(users, id, ProfileUpdated(users[id], userIn, c, now))
  {
    var u := users[id];
    assert UpdateData(Schema(userIn)) == DumpSet(userIn);
    SchemaChangeSet(userIn, c);
    SchemaChangeSetRest(userIn, c);
    var h := HashPassword(c, DumpSet(userIn)).value;
    var row := Dict(u);
    var a := Patched(row, h)["updated_at" := Int(now)];
    var p := ProfileUpdated(u, userIn, c, now);
    DictEntries(u);
    StampedPatchEntry(row, h, now, "id");
    StampedPatchEntry(row, h, now, "email");
    StampedPatchEntry(row, h, now, "hashed_password");
    StampedPatchEntry(row, h, now, "first_name");
    StampedPatchEntry(row, h, now, "last_name");
    StampedPatchEntry(row, h, now, "is_active");
    StampedPatchEntry(row, h, now, "is_superuser");
    StampedPatchEntry(row, h, now, "created_at");
    ToUserOfColumnValues(a, p);
  }

  /**
   * An explicit `None` for a name is where the two paths part: the
   * endpoint keeps the stored name, `CRUDBase.update` clears it.
   */
  lemma ExplicitNoneParts(users: map<Uuid, User>, id: Uuid, userIn: UserUpdate, c: Crypto, now: int)
    requires id in users
    requires userIn.first_name == Set(None)
    ensures ProfileUpdated(users[id], userIn, c, now).first_name == users[id].first_name
    ensures var r := Updated(users, id, Schema(userIn), c, now);
      && (UpdateAccepted(users, id, DumpSet(userIn)) ==> r.Ok?)
      && (r.Ok? ==> r.value.first_name == None)
  {
    UpdatedFromSchemaNames(users, id, userIn, c, now);
  }

  /**
   * On a valid table, a `UserUpdate` that gives only `first_name = None` is
   * saved by `CRUDBase.update` with the name cleared, while the endpoint
   * keeps the stored name.
   */
  lemma ExplicitNoneClears(users: map<Uuid, User>, order: seq<Uuid>, id: Uuid, userIn: UserUpdate, c: Crypto, now: int)
    requires TableValid(users, order) && id in users
    requires userIn == UserUpdate(first_name := Set(None))
    ensures ProfileUpdated(users[id], userIn, c, now).first_name == users[id].first_name
    ensures var r := Updated(users, id, Schema(userIn), c, now);
      r.Ok? && r.value.first_name == None && r.value.last_name == users[id].last_name
  {
    UpdatedFromSchemaSucceeds(users, order, id, userIn, c, now);
    UpdatedFromSchemaNames(users, id, userIn, c, now);
    ExplicitNoneParts(users, id, userIn, c, now);
  }
}
