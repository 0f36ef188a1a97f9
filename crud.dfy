/**
 * The generic data-access layer `CRUDBase` (`db/utils.py`) over the
 * `users` table.
 *
 * The table is a `UserTable` object: the rows by primary key, and the order
 * in which a query without ORDER BY returns them. Each call is one
 * transaction: it either commits completely or fails with a `DbError` and
 * leaves both fields as they were. What each call computes is given by a
 * function of the old table (`Created`, `Updated`, …); the lemmas after the
 * class state what those functions promise.
 */
module Crud {
  import opened Wrappers
  import opened Values
  import opened Models
  import opened Schemas
  import Security

  /** Why a call failed and was rolled back. */
  datatype DbError =
    /** `remove` of an id with no row: `Exception("No record found with id=...")` */
    | NoRecord(id: Uuid)
    /** the flush was refused: a NOT NULL column missing or `None`, or a value of the wrong type */
    | InvalidRow
    /** a unique constraint was violated: the primary key `"id"` or the `"email"` index */
    | DuplicateKey(column: string)
    /** `get_password_hash` was handed something other than a string, a `TypeError` */
    | PasswordNotString
    /** PostgreSQL refuses a negative OFFSET or LIMIT */
    | NegativeBound

  /** The text of the exception `remove` raises. */
  function NoRecordMessage(id: Uuid): (m: string)
    ensures |m| >= 24 && m[..24] == "No record found with id=" && m[24..] == UuidStr(id)
  {
    var p := "No record found with id=";
    assert (p + UuidStr(id))[..|p|] == p && (p + UuidStr(id))[|p|..] == UuidStr(id);
    p + UuidStr(id)
  }

  /** The text names the id it was raised for. */
  lemma NoRecordMessageNamesId(a: Uuid, b: Uuid)
    ensures NoRecordMessage(a) == NoRecordMessage(b) ==> a == b
  {
    var p := "No record found with id=";
    if NoRecordMessage(a) == NoRecordMessage(b) {
      assert NoRecordMessage(a)[|p|..] == UuidStr(a);
      assert NoRecordMessage(b)[|p|..] == UuidStr(b);
      UuidStrInjective(a, b);
    }
  }

  function Min(a: int, b: int): int { if a <= b then a else b }

  function Max(a: int, b: int): int { if a >= b then a else b }

  /** No two rows share an email: the unique index on `users.email`. */
  ghost predicate EmailsUnique(users: map<Uuid, User>) {
    forall a, b :: a in users && b in users && users[a].email == users[b].email ==> a == b
  }

  /** A row other than `except` already has this email. */
  predicate EmailTaken(users: map<Uuid, User>, email: string, except: Option<Uuid>) {
    exists k :: k in users && Some(k) != except && users[k].email == email
  }

  predicate Distinct(s: seq<Uuid>) {
    forall i, j :: 0 <= i < j < |s| ==> s[i] != s[j]
  }

  /**
   * The table's invariant: each row is stored under its own id, the order
   * lists every key exactly once, and no two rows share an email.
   */
  ghost predicate TableValid(users: map<Uuid, User>, order: seq<Uuid>) {
    && (forall id :: id in users ==> users[id].id == id)
    && (forall id :: id in users <==> id in order)
    && Distinct(order)
    && EmailsUnique(users)
  }

  /** The table order after a row's primary key changed from `id` to `newId`. */
  function Replace(order: seq<Uuid>, id: Uuid, newId: Uuid): (r: seq<Uuid>)
    ensures |r| == |order|
    ensures forall i :: 0 <= i < |r| ==> r[i] == if order[i] == id then newId else order[i]
  {
    seq(|order|, i requires 0 <= i < |order| => if order[i] == id then newId else order[i])
  }

  /** The table order after the row `id` was deleted. */
  function Without(order: seq<Uuid>, id: Uuid): (r: seq<Uuid>)
    ensures forall x :: x in r <==> x in order && x != id
  {
    if order == [] then []
    else if order[0] == id then Without(order[1..], id)
    else [order[0]] + Without(order[1..], id)
  }

  /** The row an INSERT of these attributes stores, or why it is refused. */
  function Inserted(users: map<Uuid, User>, attrs: Attrs, freshId: Uuid): (r: Result<User, DbError>)
    ensures r.Ok? ==> r.value.id !in users && !EmailTaken(users, r.value.email, None)
    ensures r.Ok? ==> ToUser(WithInsertDefaults(attrs, freshId)) == Some(r.value)
    ensures r == Err(InvalidRow) <==> ToUser(WithInsertDefaults(attrs, freshId)).None?
    ensures r.Err? ==> r.error == InvalidRow || r.error.DuplicateKey?
    ensures var row := ToUser(WithInsertDefaults(attrs, freshId));
      && (r.Ok? <==> row.Some? && row.value.id !in users && !EmailTaken(users, row.value.email, None))
      && (r == Err(DuplicateKey("id")) <==> row.Some? && row.value.id in users)
      && (r == Err(DuplicateKey("email")) <==>
            row.Some? && row.value.id !in users && EmailTaken(users, row.value.email, None))
  {
    var row := ToUser(WithInsertDefaults(attrs, freshId));
    if row.None? then Err(InvalidRow)
    else if row.value.id in users then Err(DuplicateKey("id"))
    else if EmailTaken(users, row.value.email, None) then Err(DuplicateKey("email"))
    else Ok(row.value)
  }

  /** The outcome of writing `u` over the row `id`; the UPDATE may rewrite the primary key. */
  function Saved(users: map<Uuid, User>, id: Uuid, u: User): (r: Result<User, DbError>)
    ensures r.Ok? <==> (u.id == id || u.id !in users) && !EmailTaken(users, u.email, Some(id))
    ensures r.Ok? ==> r.value == u
  {
    if u.id != id && u.id in users then Err(DuplicateKey("id"))
    else if EmailTaken(users, u.email, Some(id)) then Err(DuplicateKey("email"))
    else Ok(u)
  }

  /**
   * The password swap of `create` and `update`: a `password` entry is
   * removed and its hash stored under `hashed_password`.
   */
  function HashPassword(c: Security.Crypto, data: Attrs): (r: Result<Attrs, DbError>)
    ensures r.Err? <==> "password" in data && !data["password"].Str?
    ensures r.Ok? ==> "password" !in r.value
    ensures r.Ok? && "password" in data ==>
      r.value.Keys == data.Keys - {"password"} + {"hashed_password"}
      && r.value["hashed_password"] == Str(Security.GetPasswordHash(c, data["password"].s))
    ensures r.Ok? && "password" !in data ==> r.value == data
    ensures r.Ok? ==> forall k :: k in data && k != "password" && k != "hashed_password" ==> r.value[k] == data[k]
  {
    if "password" !in data then Ok(data)
    else if !data["password"].Str? then Err(PasswordNotString)
    else Ok((data - {"password"})["hashed_password" := Str(Security.GetPasswordHash(c, data["password"].s))])
  }

  /**
   * `create(obj_in)`: the payload after the password swap, given to the
   * constructor (clock reading `initNow`), then stamped `created_at` and
   * `updated_at` with the next two readings, and inserted.
   */
  function Created(users: map<Uuid, User>, objIn: Attrs, c: Security.Crypto, freshId: Uuid,
                   initNow: int, createdNow: int, updatedNow: int): (r: Result<User, DbError>)
    ensures r == Err(PasswordNotString) <==> "password" in objIn && !objIn["password"].Str?
    ensures r.Ok? ==> r.value.id !in users && !EmailTaken(users, r.value.email, None)
  {
    match HashPassword(c, objIn)
    case Err(e) => Err(e)
    case Ok(data) => Inserted(users, Stamped(data, initNow, createdNow, updatedNow), freshId)
  }

  /** The new instance's attributes once `created_at` and `updated_at` are assigned. */
  function Stamped(data: Attrs, initNow: int, createdNow: int, updatedNow: int): (a: Attrs)
    ensures a.Keys == data.Keys + {"created_at", "updated_at"}
    ensures a["created_at"] == Int(createdNow) && a["updated_at"] == Int(updatedNow)
    ensures forall k :: k in data && k != "created_at" && k != "updated_at" ==> a[k] == data[k]
  {
    assert "created_at" != "updated_at";
    Initialized(data, initNow)["created_at" := Int(createdNow)]["updated_at" := Int(updatedNow)]
  }

  /** The `obj_in` of `update`: a plain dict, or an update schema. */
  datatype UpdateInput = Changes(d: Attrs) | Schema(u: UserUpdate)

  /** `update_data`: the dict itself, or the schema's explicitly set fields. */
  function UpdateData(objIn: UpdateInput): Attrs {
    match objIn
    case Changes(d) => d
    case Schema(u) => DumpSet(u)
  }

  /** The attributes after `setattr` of every attribute of `row` that is a key of `data`. */
  function Patched(row: Attrs, data: Attrs): (r: Attrs)
    ensures r.Keys == row.Keys
    ensures forall k :: k in row ==> r[k] == if k in data then data[k] else row[k]
  {
    map k | k in row :: if k in data then data[k] else row[k]
  }

  /**
   * `update(db_obj, obj_in)` of the row `id`: the password swap, then each
   * column that is a key of the change set is written, then `updated_at`
   * is stamped with `now`, and the row is saved.
   */
  function Updated(users: map<Uuid, User>, id: Uuid, objIn: UpdateInput, c: Security.Crypto, now: int): (r: Result<User, DbError>)
    requires id in users
    ensures r == Err(PasswordNotString) <==> "password" in UpdateData(objIn) && !UpdateData(objIn)["password"].Str?
    ensures r.Ok? ==> (r.value.id == id || r.value.id !in users) && !EmailTaken(users, r.value.email, Some(id))
  {
    match HashPassword(c, UpdateData(objIn))
    case Err(e) => Err(e)
    case Ok(data) =>
      var row := ToUser(Patched(Dict(users[id]), data)["updated_at" := Int(now)]);
      if row.None? then Err(InvalidRow) else Saved(users, id, row.value)
  }

  /** The `users` table. */
  class UserTable {
    /** The rows, by primary key. */
    var users: map<Uuid, User>
    /** The order a query without ORDER BY returns the rows in. */
    var order: seq<Uuid>

    ghost predicate Valid()
      reads this
    {
      TableValid(users, order)
    }

    /** An empty table. */
    constructor ()
      ensures Valid() && users == map[] && order == []
    {
      users := map[];
      order := [];
    }

    /** `get(id)`: the row stored under `id`, or `None`. */
    function Get(id: Uuid): (r: Option<User>)
      reads this
      ensures r.Some? <==> id in users
      ensures r.Some? ==> r.value == users[id]
    {
      if id in users then Some(users[id]) else None
    }

    /** `get_multi(skip, limit)`: `query.offset(skip).limit(limit).all()`. */
    function GetMulti(skip: int := 0, limit: int := 100): (r: Result<seq<User>, DbError>)
      reads this
      requires Valid()
      ensures r.Err? <==> skip < 0 || limit < 0
      ensures r.Ok? ==> |r.value| == Min(limit, Max(0, |order| - skip))
      ensures r.Ok? ==> forall i :: 0 <= i < |r.value| ==> r.value[i] == users[order[skip + i]]
    {
      if skip < 0 || limit < 0 then Err(NegativeBound)
      else
        var start := Min(skip, |order|);
        var len := Min(limit, |order| - start);
        var us, ids := users, order;
        Ok(seq(len, i requires 0 <= i < len => us[ids[start + i]]))
    }

    /** Flushes and commits a new instance with these attributes. */
    method Insert(attrs: Attrs, freshId: Uuid) returns (r: Result<User, DbError>)
      requires Valid()
      modifies this
      ensures Valid()
      ensures r == Inserted(old(users), attrs, freshId)
      ensures r.Ok? ==> users == old(users)[r.value.id := r.value] && order == old(order) + [r.value.id]
      ensures r.Err? ==> users == old(users) && order == old(order)
    {
      r := Inserted(users, attrs, freshId);
      if r.Ok? {
        var u := r.value;
        InsertKeepsValid(users, order, u);
        users := users[u.id := u];
        order := order + [u.id];
      }
    }

    /** Commits `u` over the row `id`. */
    method Save(id: Uuid, u: User) returns (r: Result<User, DbError>)
      requires Valid() && id in users
      modifies this
      ensures Valid()
      ensures r == Saved(old(users), id, u)
      ensures r.Ok? ==> users == (old(users) - {id})[u.id := u] && order == Replace(old(order), id, u.id)
      ensures r.Err? ==> users == old(users) && order == old(order)
    {
      r := Saved(users, id, u);
      if r.Ok? {
        SaveKeepsValid(users, order, id, u);
        users := (users - {id})[u.id := u];
        order := Replace(order, id, u.id);
      }
    }

    /** `create(obj_in)`, `objIn` being `jsonable_encoder(obj_in)`. */
    method Create(objIn: Attrs, c: Security.Crypto, freshId: Uuid, initNow: int, createdNow: int, updatedNow: int)
      returns (r: Result<User, DbError>)
      requires Valid()
      modifies this
      ensures Valid()
      ensures r == Created(old(users), objIn, c, freshId, initNow, createdNow, updatedNow)
      ensures r.Ok? ==> users == old(users)[r.value.id := r.value] && order == old(order) + [r.value.id]
      ensures r.Err? ==> users == old(users) && order == old(order)
      ensures r.Ok? ==> Get(r.value.id) == Some(r.value)
    {
      var data := objIn;
      if "password" in data {
        if !data["password"].Str? {
          return Err(PasswordNotString);
        }
        var hashed := Security.GetPasswordHash(c, data["password"].s);
        data := data - {"password"};
        data := data["hashed_password" := Str(hashed)];
      }
      assert HashPassword(c, objIn) == Ok(data);
      var obj := Construct(data, initNow);
      obj := obj["created_at" := Int(createdNow)];
      obj := obj["updated_at" := Int(updatedNow)];
      assert obj == Stamped(data, initNow, createdNow, updatedNow);
      r := Insert(obj, freshId);
    }

    /** `update(db_obj, obj_in)` of the row `id`. */
    method Update(id: Uuid, objIn: UpdateInput, c: Security.Crypto, now: int) returns (r: Result<User, DbError>)
      requires Valid() && id in users
      modifies this
      ensures Valid()
      ensures r == Updated(old(users), id, objIn, c, now)
      ensures r.Ok? ==> users == (old(users) - {id})[r.value.id := r.value] && order == Replace(old(order), id, r.value.id)
      ensures r.Err? ==> users == old(users) && order == old(order)
    {
      var swapped := HashPassword(c, UpdateData(objIn));
      if swapped.Err? {
        return Err(swapped.error);
      }
      var current := Dict(users[id]);
      DictFollowsColumnNames(users[id]);
      var obj := SetFields(current, ColumnNames, swapped.value);
      assert HashPassword(c, UpdateData(objIn)) == swapped;
      assert obj == Patched(Dict(old(users)[id]), swapped.value);
      obj := obj["updated_at" := Int(now)];
      var row := ToUser(obj);
      if row.None? {
        return Err(InvalidRow);
      }
      assert Updated(users, id, objIn, c, now) == Saved(users, id, row.value);
      r := Save(id, row.value);
      assert r.Ok? ==> r.value == row.value;
    }

    /** `remove(id)`: deletes the row and returns what it held. */
    method Remove(id: Uuid) returns (r: Result<User, DbError>)
      requires Valid()
      modifies this
      ensures Valid()
      ensures id !in old(users) ==> r == Err(NoRecord(id)) && users == old(users) && order == old(order)
      ensures id in old(users) ==>
        r == Ok(old(users)[id]) && users == old(users) - {id} && order == Without(old(order), id)
      ensures Get(id).None?
    {
      if id !in users {
        return Err(NoRecord(id));
      }
      r := Ok(users[id]);
      RemoveKeepsValid(users, order, id);
      users := users - {id};
      order := Without(order, id);
    }
  }

  /**
   * `for field in obj_data: if field in update_data: setattr(db_obj, field, ...)`:
   * walks the attribute names `fields` in order and overwrites each one the
   * change set names.
   */
  method SetFields(current: Attrs, fields: seq<string>, data: Attrs) returns (obj: Attrs)
    requires forall k :: k in current <==> k in fields
    ensures obj == Patched(current, data)
  {
    obj := current;
    var i := 0;
    while i < |fields|
      invariant 0 <= i <= |fields|
      invariant PatchedUpTo(obj, current, fields, data, i)
    {
      PatchStep(obj, current, fields, data, i);
      var field := fields[i];
      if field in data {
        obj := obj[field := data[field]];
      }
      i := i + 1;
    }
    PatchedUpToAll(obj, current, fields, data);
  }

  /** After the first `i` names: those the change set names are written, the rest untouched. */
  ghost predicate PatchedUpTo(obj: Attrs, current: Attrs, fields: seq<string>, data: Attrs, i: nat)
    requires i <= |fields|
  {
    && obj.Keys == current.Keys
    && forall k :: k in obj ==> obj[k] == if k in data && k in fields[..i] then data[k] else current[k]
  }

  /** One more name processed. */
  lemma PatchStep(obj: Attrs, current: Attrs, fields: seq<string>, data: Attrs, i: nat)
    requires i < |fields| && fields[i] in current
    requires PatchedUpTo(obj, current, fields, data, i)
    ensures var field := fields[i];
      PatchedUpTo(if field in data then obj[field := data[field]] else obj, current, fields, data, i + 1)
  {
    assert fields[..i + 1] == fields[..i] + [fields[i]];
  }

  /** Every name processed: the attributes are the patched row. */
  lemma PatchedUpToAll(obj: Attrs, current: Attrs, fields: seq<string>, data: Attrs)
    requires forall k :: k in current <==> k in fields
    requires PatchedUpTo(obj, current, fields, data, |fields|)
    ensures obj == Patched(current, data)
  {
    assert fields[..|fields|] == fields;
  }

  /** Deleting from a duplicate-free order leaves it duplicate-free. */
  lemma {:induction false} WithoutKeepsDistinct(order: seq<Uuid>, id: Uuid)
    requires Distinct(order)
    ensures Distinct(Without(order, id))
  {
    if order != [] {
      WithoutKeepsDistinct(order[1..], id);
      if order[0] != id {
        var rest := Without(order[1..], id);
        assert order[0] !in order[1..];
        assert order[0] !in rest;
        var r := [order[0]] + rest;
        forall i, j | 0 <= i < j < |r| ensures r[i] != r[j] {
          if i == 0 {
            assert r[j] == rest[j - 1];
          } else {
            assert r[i] == rest[i - 1] && r[j] == rest[j - 1];
          }
        }
      }
    }
  }

  /** An INSERT the constraints accept keeps the table's invariant. */
  lemma InsertKeepsValid(users: map<Uuid, User>, order: seq<Uuid>, u: User)
    requires TableValid(users, order)
    requires u.id !in users && !EmailTaken(users, u.email, None)
    ensures TableValid(users[u.id := u], order + [u.id])
  {
    InsertKeepsEmailsUnique(users, u);
    var o := order + [u.id];
    forall i, j | 0 <= i < j < |o| ensures o[i] != o[j] {
      if j == |order| {
        assert o[i] == order[i] && order[i] in users;
      } else {
        assert o[i] == order[i] && o[j] == order[j];
      }
    }
  }

  /** A save the constraints accept keeps the table's invariant. */
  lemma SaveKeepsValid(users: map<Uuid, User>, order: seq<Uuid>, id: Uuid, u: User)
    requires TableValid(users, order) && id in users
    requires Saved(users, id, u).Ok?
    ensures TableValid((users - {id})[u.id := u], Replace(order, id, u.id))
  {
    SaveKeepsEmailsUnique(users, id, u);
    ReplaceKeepsDistinct(order, id, u.id);
  }

  /** Writing a row back under its own key replaces that row and keeps the order. */
  lemma SaveInPlace(users: map<Uuid, User>, order: seq<Uuid>, id: Uuid, u: User)
    requires id in users && u.id == id
    ensures (users - {id})[u.id := u] == users[id := u]
    ensures Replace(order, id, u.id) == order
  {
  }

  /** A delete keeps the table's invariant. */
  lemma RemoveKeepsValid(users: map<Uuid, User>, order: seq<Uuid>, id: Uuid)
    requires TableValid(users, order)
    ensures TableValid(users - {id}, Without(order, id))
  {
    WithoutKeepsDistinct(order, id);
  }

  /** A row whose email no other row has keeps emails unique when added. */
  lemma InsertKeepsEmailsUnique(users: map<Uuid, User>, u: User)
    requires EmailsUnique(users)
    requires !EmailTaken(users, u.email, None)
    ensures EmailsUnique(users[u.id := u])
  {
    forall k | k in users ensures users[k].email != u.email {
    }
  }

  /** Writing over a row keeps emails unique when no other row has the new email. */
  lemma SaveKeepsEmailsUnique(users: map<Uuid, User>, id: Uuid, u: User)
    requires EmailsUnique(users) && id in users
    requires Saved(users, id, u).Ok?
    ensures EmailsUnique((users - {id})[u.id := u])
  {
    forall k | k in users && k != id ensures users[k].email != u.email {
    }
  }

  /** Renaming one element of a duplicate-free order to a name not already used keeps it duplicate-free. */
  lemma ReplaceKeepsDistinct(order: seq<Uuid>, id: Uuid, newId: Uuid)
    requires Distinct(order)
    requires newId == id || newId !in order
    ensures Distinct(Replace(order, id, newId))
    ensures forall x :: x in Replace(order, id, newId) <==> (x in order && x != id) || (x == newId && id in order)
  {
    var r := Replace(order, id, newId);
    forall x | x in r ensures (x in order && x != id) || (x == newId && id in order) {
      var i :| 0 <= i < |r| && r[i] == x;
    }
    forall x | (x in order && x != id) || (x == newId && id in order) ensures x in r {
      if x in order && x != id {
        var i :| 0 <= i < |order| && order[i] == x;
        assert r[i] == x;
      } else {
        var i :| 0 <= i < |order| && order[i] == id;
        assert r[i] == x;
      }
    }
  }

  /** The row a `UserCreate` payload makes: its fields, the password's hash, the new id and the stamps. */
  function SchemaRow(uc: UserCreate, c: Security.Crypto, freshId: Uuid, createdNow: int, updatedNow: int): User {
    User(freshId, uc.email, Security.GetPasswordHash(c, uc.password), uc.first_name, uc.last_name,
         uc.is_active, uc.is_superuser, createdNow, updatedNow)
  }

  /** The INSERT of a `UserCreate` payload is a well-formed row. */
  lemma StoredFromSchema(uc: UserCreate, c: Security.Crypto, freshId: Uuid, initNow: int, createdNow: int, updatedNow: int)
    ensures HashPassword(c, EncodeCreate(uc)).Ok?
    ensures ToUser(WithInsertDefaults(Stamped(HashPassword(c, EncodeCreate(uc)).value, initNow, createdNow, updatedNow), freshId))
         == Some(SchemaRow(uc, c, freshId, createdNow, updatedNow))
  {
    var d := EncodeCreate(uc);
    var hash := Security.GetPasswordHash(c, uc.password);
    var h := (d - {"password"})["hashed_password" := Str(hash)];
    assert HashPassword(c, d) == Ok(h);
    assert h["email"] == Str(uc.email) && h["hashed_password"] == Str(hash);
    assert h["first_name"] == FromOptStr(uc.first_name) && h["last_name"] == FromOptStr(uc.last_name);
    assert h["is_active"] == Bool(uc.is_active) && h["is_superuser"] == Bool(uc.is_superuser);
    assert "id" !in h;
    var a := Stamped(h, initNow, createdNow, updatedNow);
    var w := WithInsertDefaults(a, freshId);
    StampedLeavesOut(h, initNow, createdNow, updatedNow, "id");
    InsertedKeeps(h, initNow, createdNow, updatedNow, freshId, "email");
    InsertedKeeps(h, initNow, createdNow, updatedNow, freshId, "hashed_password");
    InsertedKeeps(h, initNow, createdNow, updatedNow, freshId, "first_name");
    InsertedKeeps(h, initNow, createdNow, updatedNow, freshId, "last_name");
    InsertedKeeps(h, initNow, createdNow, updatedNow, freshId, "is_active");
    InsertedKeeps(h, initNow, createdNow, updatedNow, freshId, "is_superuser");
    ToUserOfColumnValues(w, SchemaRow(uc, c, freshId, createdNow, updatedNow));
  }

  /**
   * An attribute other than the stamps reaches the INSERT as given, except that a
   * `None` in a defaulted column is left out and the column gets its default.
   */
  lemma InsertedKeeps(data: Attrs, initNow: int, createdNow: int, updatedNow: int, freshId: Uuid, k: string)
    requires k in data && k != "created_at" && k != "updated_at"
    ensures var w := WithInsertDefaults(Stamped(data, initNow, createdNow, updatedNow), freshId);
      k in w && w[k] == InsertValue(k, data[k], freshId)
  {
  }

  /**
   * Creating from a `UserCreate` payload stores exactly its fields, the hash
   * of its password, the generated id and the two stamps; it fails, with the
   * unique violation on `email`, exactly when another row has that email.
   */
  lemma CreatedFromSchema(users: map<Uuid, User>, uc: UserCreate, c: Security.Crypto, freshId: Uuid,
                          initNow: int, createdNow: int, updatedNow: int)
    requires freshId !in users
    ensures Created(users, EncodeCreate(uc), c, freshId, initNow, createdNow, updatedNow)
         == if EmailTaken(users, uc.email, None) then Err(DuplicateKey("email"))
            else Ok(SchemaRow(uc, c, freshId, createdNow, updatedNow))
  {
    StoredFromSchema(uc, c, freshId, initNow, createdNow, updatedNow);
  }

  /** The stamp `__init__` puts on the instance is overwritten before the INSERT. */
  lemma CreatedIgnoresInitStamp(users: map<Uuid, User>, objIn: Attrs, c: Security.Crypto, freshId: Uuid,
                                initNow: int, initNow': int, createdNow: int, updatedNow: int)
    ensures Created(users, objIn, c, freshId, initNow, createdNow, updatedNow)
         == Created(users, objIn, c, freshId, initNow', createdNow, updatedNow)
  {
    if HashPassword(c, objIn).Ok? {
      var data := HashPassword(c, objIn).value;
      assert Stamped(data, initNow, createdNow, updatedNow) == Stamped(data, initNow', createdNow, updatedNow);
    }
  }

  /**
   * A created row carries the two stamps, so it was not updated before it
   * was created when the clock does not run backwards.
   */
  lemma CreatedStamps(users: map<Uuid, User>, objIn: Attrs, c: Security.Crypto, freshId: Uuid,
                      initNow: int, createdNow: int, updatedNow: int)
    ensures var r := Created(users, objIn, c, freshId, initNow, createdNow, updatedNow);
      r.Ok? ==> (r.value.created_at == createdNow && r.value.updated_at == updatedNow
            && (createdNow <= updatedNow ==> r.value.created_at <= r.value.updated_at))
  {
    var r := Created(users, objIn, c, freshId, initNow, createdNow, updatedNow);
    if r.Ok? {
      var a := Stamped(HashPassword(c, objIn).value, initNow, createdNow, updatedNow);
      assert r == Inserted(users, a, freshId);
      assert "created_at" != "id" && "updated_at" != "id";
      var w := WithInsertDefaults(a, freshId);
      assert w["created_at"] == Int(createdNow) && w["updated_at"] == Int(updatedNow);
      assert ToUser(w).Some? && r.value == ToUser(w).value;
    }
  }

  /**
   * A plaintext `password` in the payload is stored only as its hash, which
   * the password then verifies against.
   */
  lemma CreatedHashesPassword(users: map<Uuid, User>, objIn: Attrs, c: Security.Crypto, freshId: Uuid,
                              initNow: int, createdNow: int, updatedNow: int)
    requires "password" in objIn && objIn["password"].Str?
    requires Security.HashLawful(c)
    ensures var r := Created(users, objIn, c, freshId, initNow, createdNow, updatedNow);
      r.Ok? ==> (r.value.hashed_password == Security.GetPasswordHash(c, objIn["password"].s)
            && Security.VerifyPassword(c, objIn["password"].s, r.value.hashed_password))
  {
    var r := Created(users, objIn, c, freshId, initNow, createdNow, updatedNow);
    if r.Ok? {
      var data := HashPassword(c, objIn).value;
      var a := Stamped(data, initNow, createdNow, updatedNow);
      assert r == Inserted(users, a, freshId);
      assert "hashed_password" != "id" && "hashed_password" != "created_at" && "hashed_password" != "updated_at";
      assert a["hashed_password"] == data["hashed_password"];
      var w := WithInsertDefaults(a, freshId);
      assert w["hashed_password"] == Str(Security.GetPasswordHash(c, objIn["password"].s));
      assert ToUser(w).Some? && r.value == ToUser(w).value;
    }
  }

  /**
   * Every other column the payload gives is stored as given (an `id` that is
   * given is used instead of a generated one), except that a `None` in a column
   * with a default stores that default.
   */
  lemma CreatedCopiesColumn(users: map<Uuid, User>, objIn: Attrs, c: Security.Crypto, freshId: Uuid,
                            initNow: int, createdNow: int, updatedNow: int, k: string)
    requires k in Columns && k != "hashed_password" && k != "created_at" && k != "updated_at"
    requires k in objIn
    requires Created(users, objIn, c, freshId, initNow, createdNow, updatedNow).Ok?
    ensures Dict(Created(users, objIn, c, freshId, initNow, createdNow, updatedNow).value)[k]
         == InsertValue(k, objIn[k], freshId)
  {
    var w := WithInsertDefaults(Stamped(HashPassword(c, objIn).value, initNow, createdNow, updatedNow), freshId);
    PayloadColumnKept(objIn, c, freshId, initNow, createdNow, updatedNow, k);
    DictOfToUser(w);
  }

  /** The INSERT writes the payload's value for each such column, or its default for a `None`. */
  lemma PayloadColumnKept(objIn: Attrs, c: Security.Crypto, freshId: Uuid,
                          initNow: int, createdNow: int, updatedNow: int, k: string)
    requires k in Columns && k != "hashed_password" && k != "created_at" && k != "updated_at"
    requires k in objIn
    requires HashPassword(c, objIn).Ok?
    ensures var w := WithInsertDefaults(Stamped(HashPassword(c, objIn).value, initNow, createdNow, updatedNow), freshId);
      k in w && w[k] == InsertValue(k, objIn[k], freshId)
  {
    var data := HashPassword(c, objIn).value;
    assert k != "password";
    assert data[k] == objIn[k];
    var a := Stamped(data, initNow, createdNow, updatedNow);
    assert a[k] == objIn[k];
  }

  /** `email` is NOT NULL without a default: a payload without it is refused. */
  lemma CreatedNeedsEmail(users: map<Uuid, User>, objIn: Attrs, c: Security.Crypto, freshId: Uuid,
                          initNow: int, createdNow: int, updatedNow: int)
    requires "email" !in objIn
    ensures Created(users, objIn, c, freshId, initNow, createdNow, updatedNow)
         == Err(if "password" in objIn && !objIn["password"].Str? then PasswordNotString else InvalidRow)
  {
    var h := HashPassword(c, objIn);
    if h.Ok? {
      assert "email" != "hashed_password" && "email" != "password";
      assert "email" !in h.value;
      StampedLeavesOut(h.value, initNow, createdNow, updatedNow, "email");
      InsertDefaultsLeaveOut(Stamped(h.value, initNow, createdNow, updatedNow), freshId, "email");
    }
  }

  /** Stamping adds no attribute but the two timestamps. */
  lemma StampedLeavesOut(data: Attrs, initNow: int, createdNow: int, updatedNow: int, k: string)
    requires k !in data && k != "created_at" && k != "updated_at"
    ensures k !in Stamped(data, initNow, createdNow, updatedNow)
  {
  }

  /** The INSERT adds no attribute but the defaulted columns. */
  lemma InsertDefaultsLeaveOut(a: Attrs, freshId: Uuid, k: string)
    requires k !in a && k !in DefaultedColumns
    ensures k !in WithInsertDefaults(a, freshId)
  {
  }

  /** `hashed_password` is NOT NULL without a default: a payload with neither password field is refused. */
  lemma CreatedNeedsPassword(users: map<Uuid, User>, objIn: Attrs, c: Security.Crypto, freshId: Uuid,
                             initNow: int, createdNow: int, updatedNow: int)
    requires "password" !in objIn && "hashed_password" !in objIn
    ensures Created(users, objIn, c, freshId, initNow, createdNow, updatedNow) == Err(InvalidRow)
  {
    assert HashPassword(c, objIn) == Ok(objIn);
    StampedLeavesOut(objIn, initNow, createdNow, updatedNow, "hashed_password");
    InsertDefaultsLeaveOut(Stamped(objIn, initNow, createdNow, updatedNow), freshId, "hashed_password");
  }

  /** The primary key a create stores: a given UUID, else the `uuid4()` drawn for the INSERT. */
  function CreatedId(objIn: Attrs, freshId: Uuid): Uuid {
    if "id" in objIn && objIn["id"].Id? then objIn["id"].u else freshId
  }

  /** The email a create stores: the given string (without one the row is refused). */
  function CreatedEmail(objIn: Attrs): string {
    if "email" in objIn && objIn["email"].Str? then objIn["email"].s else ""
  }

  /** An INSERT accepts `v` for the column `k`: a value of the column's type, or `None` where the column has a default. */
  predicate InsertTyped(k: string, v: Value) {
    (k in DefaultedColumns && v.Null?) || ColumnTyped(k, v)
  }

  /**
   * The payloads a create can turn into a row: a string password, an
   * email, a password or a hash for `hashed_password`, and an accepted
   * value for each column given (the stamps, and a `hashed_password` that
   * a password overrides, are written over and do not matter).
   */
  predicate CreateStorable(objIn: Attrs) {
    && ("password" in objIn ==> objIn["password"].Str?)
    && "email" in objIn
    && ("password" in objIn || "hashed_password" in objIn)
    && (forall k ::
          (k in objIn && k in Columns && k != "created_at" && k != "updated_at" && !(k == "hashed_password" && "password" in objIn))
          ==> InsertTyped(k, objIn[k]))
  }

  /** The payloads a create commits: storable, with an unused primary key and an email no row has. */
  predicate CreateAccepted(users: map<Uuid, User>, objIn: Attrs, freshId: Uuid) {
    && CreateStorable(objIn)
    && CreatedId(objIn, freshId) !in users
    && !EmailTaken(users, CreatedEmail(objIn), None)
  }

  /** A column of the attributes a create inserts. */
  lemma CreatedRowColumn(objIn: Attrs, c: Security.Crypto, freshId: Uuid,
                         initNow: int, createdNow: int, updatedNow: int, k: string)
    requires HashPassword(c, objIn).Ok? && k in Columns
    ensures var w := WithInsertDefaults(Stamped(HashPassword(c, objIn).value, initNow, createdNow, updatedNow), freshId);
      && (k in w <==> k in objIn || k in DefaultedColumns || k == "created_at" || k == "updated_at"
                      || (k == "hashed_password" && "password" in objIn))
      && (k in w ==>
            w[k] == if k == "created_at" then Int(createdNow)
            else if k == "updated_at" then Int(updatedNow)
            else if k == "hashed_password" && "password" in objIn then Str(Security.GetPasswordHash(c, objIn["password"].s))
            else if k in objIn then InsertValue(k, objIn[k], freshId)
            else ColumnDefault(k, freshId))
  {
    var h := HashPassword(c, objIn).value;
    assert k != "password";
    if k != "created_at" && k != "updated_at" && !(k == "hashed_password" && "password" in objIn) {
      if k != "hashed_password" {
        SwapKeeps(c, objIn, k);
      } else {
        assert h == objIn;
      }
    }
  }

  /** Each column a storable payload inserts has the column's type. */
  lemma CreatedColumnTyped(objIn: Attrs, c: Security.Crypto, freshId: Uuid,
                           initNow: int, createdNow: int, updatedNow: int, k: string)
    requires CreateStorable(objIn) && k in Columns
    ensures HashPassword(c, objIn).Ok?
    ensures var w := WithInsertDefaults(Stamped(HashPassword(c, objIn).value, initNow, createdNow, updatedNow), freshId);
      k in w && ColumnTyped(k, w[k])
  {
    if k == "created_at" || k == "updated_at" || (k == "hashed_password" && "password" in objIn) {
      CreatedRowColumn(objIn, c, freshId, initNow, createdNow, updatedNow, k);
    } else if k in objIn {
      CreatedColumnGiven(objIn, c, freshId, initNow, createdNow, updatedNow, k);
      InsertValueTyped(k, objIn[k], freshId);
    } else {
      assert k in DefaultedColumns;
      CreatedColumnDefault(objIn, c, freshId, initNow, createdNow, updatedNow, k);
      DefaultTyped(k, freshId);
    }
  }

  /** A column the payload gives reaches the INSERT as `InsertValue`. */
  lemma CreatedColumnGiven(objIn: Attrs, c: Security.Crypto, freshId: Uuid,
                           initNow: int, createdNow: int, updatedNow: int, k: string)
    requires HashPassword(c, objIn).Ok? && k in objIn && k in Columns && k != "created_at" && k != "updated_at"
    requires !(k == "hashed_password" && "password" in objIn)
    ensures var w := WithInsertDefaults(Stamped(HashPassword(c, objIn).value, initNow, createdNow, updatedNow), freshId);
      k in w && w[k] == InsertValue(k, objIn[k], freshId)
  {
    assert k != "password";
    if k != "hashed_password" {
      SwapKeeps(c, objIn, k);
    }
  }

  /** A defaulted column the payload does not give gets its default. */
  lemma CreatedColumnDefault(objIn: Attrs, c: Security.Crypto, freshId: Uuid,
                             initNow: int, createdNow: int, updatedNow: int, k: string)
    requires HashPassword(c, objIn).Ok? && k !in objIn && k in DefaultedColumns
    ensures var w := WithInsertDefaults(Stamped(HashPassword(c, objIn).value, initNow, createdNow, updatedNow), freshId);
      k in w && w[k] == ColumnDefault(k, freshId)
  {
    assert k != "password" && k != "hashed_password" && k != "created_at" && k != "updated_at";
    SwapKeeps(c, objIn, k);
  }

  /** An accepted value, or the default it stands for, has the column's type. */
  lemma InsertValueTyped(k: string, v: Value, freshId: Uuid)
    requires InsertTyped(k, v)
    ensures ColumnTyped(k, InsertValue(k, v, freshId))
  {
    if k in DefaultedColumns && v.Null? {
      DefaultTyped(k, freshId);
    }
  }

  /** A column default has the column's type. */
  lemma DefaultTyped(k: string, freshId: Uuid)
    requires k in DefaultedColumns
    ensures ColumnTyped(k, ColumnDefault(k, freshId))
  {
  }

  /** The attributes a create inserts form a row exactly when the payload is storable. */
  lemma CreatedRowStorable(objIn: Attrs, c: Security.Crypto, freshId: Uuid,
                           initNow: int, createdNow: int, updatedNow: int)
    requires HashPassword(c, objIn).Ok?
    ensures Storable(WithInsertDefaults(Stamped(HashPassword(c, objIn).value, initNow, createdNow, updatedNow), freshId))
        <==> CreateStorable(objIn)
  {
    var w := WithInsertDefaults(Stamped(HashPassword(c, objIn).value, initNow, createdNow, updatedNow), freshId);
    if CreateStorable(objIn) {
      forall k | k in Columns ensures k in w && ColumnTyped(k, w[k]) {
        CreatedColumnTyped(objIn, c, freshId, initNow, createdNow, updatedNow, k);
      }
      TypedIsStorable(w);
    } else if "email" !in objIn {
      CreatedRowColumn(objIn, c, freshId, initNow, createdNow, updatedNow, "email");
    } else if !("password" in objIn || "hashed_password" in objIn) {
      CreatedRowColumn(objIn, c, freshId, initNow, createdNow, updatedNow, "hashed_password");
    } else {
      var k :| k in objIn && k in Columns && k != "created_at" && k != "updated_at"
        && !(k == "hashed_password" && "password" in objIn) && !InsertTyped(k, objIn[k]);
      CreatedRowColumn(objIn, c, freshId, initNow, createdNow, updatedNow, k);
      if Storable(w) {
        StorableTyped(w, k);
      }
    }
  }

  /** The row a create inserts has the given or drawn key and the given email. */
  lemma CreatedRowIdentity(objIn: Attrs, c: Security.Crypto, freshId: Uuid,
                           initNow: int, createdNow: int, updatedNow: int)
    requires HashPassword(c, objIn).Ok?
    requires ToUser(WithInsertDefaults(Stamped(HashPassword(c, objIn).value, initNow, createdNow, updatedNow), freshId)).Some?
    ensures var row := ToUser(WithInsertDefaults(Stamped(HashPassword(c, objIn).value, initNow, createdNow, updatedNow), freshId)).value;
      row.id == CreatedId(objIn, freshId) && row.email == CreatedEmail(objIn)
  {
    var w := WithInsertDefaults(Stamped(HashPassword(c, objIn).value, initNow, createdNow, updatedNow), freshId);
    var row := ToUser(w).value;
    CreatedRowColumn(objIn, c, freshId, initNow, createdNow, updatedNow, "id");
    CreatedRowColumn(objIn, c, freshId, initNow, createdNow, updatedNow, "email");
    StoredColumn(w, "id");
    StoredColumn(w, "email");
    DictEntries(row);
  }

  /**
   * A create commits exactly when the database accepts its payload: then it
   * is neither the `TypeError` nor a refused row nor a unique violation.
   * Attributes that are not columns play no part.
   */
  lemma CreatedSucceedsIff(users: map<Uuid, User>, objIn: Attrs, c: Security.Crypto, freshId: Uuid,
                           initNow: int, createdNow: int, updatedNow: int)
    ensures Created(users, objIn, c, freshId, initNow, createdNow, updatedNow).Ok? <==> CreateAccepted(users, objIn, freshId)
  {
    if HashPassword(c, objIn).Ok? {
      var w := WithInsertDefaults(Stamped(HashPassword(c, objIn).value, initNow, createdNow, updatedNow), freshId);
      CreatedRowStorable(objIn, c, freshId, initNow, createdNow, updatedNow);
      if Storable(w) {
        CreatedRowIdentity(objIn, c, freshId, initNow, createdNow, updatedNow);
      }
    }
  }

  /**
   * Why a create is refused: a password that is not a string, a payload
   * that forms no row, a primary key another row has, or an email another
   * row has.
   */
  lemma CreatedRefusals(users: map<Uuid, User>, objIn: Attrs, c: Security.Crypto, freshId: Uuid,
                        initNow: int, createdNow: int, updatedNow: int)
    ensures var r := Created(users, objIn, c, freshId, initNow, createdNow, updatedNow);
      && (r.Err? ==> r.error in {PasswordNotString, InvalidRow, DuplicateKey("id"), DuplicateKey("email")})
      && (r == Err(InvalidRow) <==> ("password" in objIn ==> objIn["password"].Str?) && !CreateStorable(objIn))
      && (r == Err(DuplicateKey("id")) <==> CreateStorable(objIn) && CreatedId(objIn, freshId) in users)
      && (r == Err(DuplicateKey("email")) <==>
            CreateStorable(objIn) && CreatedId(objIn, freshId) !in users && EmailTaken(users, CreatedEmail(objIn), None))
  {
    if HashPassword(c, objIn).Ok? {
      var w := WithInsertDefaults(Stamped(HashPassword(c, objIn).value, initNow, createdNow, updatedNow), freshId);
      CreatedRowStorable(objIn, c, freshId, initNow, createdNow, updatedNow);
      if Storable(w) {
        CreatedRowIdentity(objIn, c, freshId, initNow, createdNow, updatedNow);
      }
    }
  }

  /**
   * A dictionary payload with an email, a password and any attributes that
   * are not columns commits when the email is free: the extra attributes are
   * not stored, and the columns not given get their defaults.
   */
  lemma CreatedFromDictWithExtras(users: map<Uuid, User>, objIn: Attrs, c: Security.Crypto, freshId: Uuid,
                                  initNow: int, createdNow: int, updatedNow: int, email: string, password: string)
    requires "email" in objIn && objIn["email"] == Str(email)
    requires "password" in objIn && objIn["password"] == Str(password)
    requires forall k :: k in objIn && k in Columns ==> k == "email"
    requires freshId !in users && !EmailTaken(users, email, None)
    ensures Created(users, objIn, c, freshId, initNow, createdNow, updatedNow)
         == Ok(User(freshId, email, Security.GetPasswordHash(c, password), None, None, true, false, createdNow, updatedNow))
  {
    assert "id" !in objIn;
    assert CreateStorable(objIn);
    CreatedSucceedsIff(users, objIn, c, freshId, initNow, createdNow, updatedNow);
    ExtrasRow(objIn, c, freshId, initNow, createdNow, updatedNow, email, password);
  }

  /** The row such a payload inserts. */
  lemma ExtrasRow(objIn: Attrs, c: Security.Crypto, freshId: Uuid,
                  initNow: int, createdNow: int, updatedNow: int, email: string, password: string)
    requires "email" in objIn && objIn["email"] == Str(email)
    requires "password" in objIn && objIn["password"] == Str(password)
    requires forall k :: k in objIn && k in Columns ==> k == "email"
    ensures HashPassword(c, objIn).Ok?
    ensures ToUser(WithInsertDefaults(Stamped(HashPassword(c, objIn).value, initNow, createdNow, updatedNow), freshId))
         == Some(User(freshId, email, Security.GetPasswordHash(c, password), None, None, true, false, createdNow, updatedNow))
  {
    var w := WithInsertDefaults(Stamped(HashPassword(c, objIn).value, initNow, createdNow, updatedNow), freshId);
    ExtrasIdentity(objIn, c, freshId, initNow, createdNow, updatedNow, email, password);
    ExtrasDefaults(objIn, c, freshId, initNow, createdNow, updatedNow);
    ToUserOfColumnValues(w, User(freshId, email, Security.GetPasswordHash(c, password), None, None, true, false, createdNow, updatedNow));
  }

  /** Such a payload inserts the drawn id, its email and its password's hash. */
  lemma ExtrasIdentity(objIn: Attrs, c: Security.Crypto, freshId: Uuid,
                       initNow: int, createdNow: int, updatedNow: int, email: string, password: string)
    requires "email" in objIn && objIn["email"] == Str(email)
    requires "password" in objIn && objIn["password"] == Str(password)
    requires "id" !in objIn
    ensures HashPassword(c, objIn).Ok?
    ensures var w := WithInsertDefaults(Stamped(HashPassword(c, objIn).value, initNow, createdNow, updatedNow), freshId);
      && "id" in w && w["id"] == Id(freshId)
      && "email" in w && w["email"] == Str(email)
      && "hashed_password" in w && w["hashed_password"] == Str(Security.GetPasswordHash(c, password))
  {
    CreatedRowColumn(objIn, c, freshId, initNow, createdNow, updatedNow, "id");
    CreatedRowColumn(objIn, c, freshId, initNow, createdNow, updatedNow, "email");
    CreatedRowColumn(objIn, c, freshId, initNow, createdNow, updatedNow, "hashed_password");
  }

  /** A payload that gives neither name nor flag inserts their defaults beside the two stamps. */
  lemma ExtrasDefaults(objIn: Attrs, c: Security.Crypto, freshId: Uuid, initNow: int, createdNow: int, updatedNow: int)
    requires HashPassword(c, objIn).Ok?
    requires "first_name" !in objIn && "last_name" !in objIn && "is_active" !in objIn && "is_superuser" !in objIn
    ensures var w := WithInsertDefaults(Stamped(HashPassword(c, objIn).value, initNow, createdNow, updatedNow), freshId);
      && "first_name" in w && w["first_name"] == Null && "last_name" in w && w["last_name"] == Null
      && "is_active" in w && w["is_active"] == Bool(true) && "is_superuser" in w && w["is_superuser"] == Bool(false)
      && "created_at" in w && w["created_at"] == Int(createdNow) && "updated_at" in w && w["updated_at"] == Int(updatedNow)
  {
    CreatedRowColumn(objIn, c, freshId, initNow, createdNow, updatedNow, "first_name");
    CreatedRowColumn(objIn, c, freshId, initNow, createdNow, updatedNow, "last_name");
    CreatedRowColumn(objIn, c, freshId, initNow, createdNow, updatedNow, "is_active");
    CreatedRowColumn(objIn, c, freshId, initNow, createdNow, updatedNow, "is_superuser");
    CreatedRowColumn(objIn, c, freshId, initNow, createdNow, updatedNow, "created_at");
    CreatedRowColumn(objIn, c, freshId, initNow, createdNow, updatedNow, "updated_at");
  }

  /** A change set acts only through the columns it names. */
  lemma PatchedSeesOnlyColumns(row: Attrs, d: Attrs, e: Attrs)
    requires forall k :: k in row ==> (k in d <==> k in e) && (k in d ==> d[k] == e[k])
    ensures Patched(row, d) == Patched(row, e)
  {
  }

  /** Keys of the change set that are not columns (and not `password`) are ignored. */
  lemma UpdateIgnoresUnknownKeys(users: map<Uuid, User>, id: Uuid, d: Attrs, extra: Attrs, c: Security.Crypto, now: int)
    requires id in users
    requires forall k :: k in extra ==> k !in Columns && k != "password"
    ensures Updated(users, id, Changes(d + extra), c, now) == Updated(users, id, Changes(d), c, now)
  {
    var h1, h2 := HashPassword(c, d + extra), HashPassword(c, d);
    SwapIgnoresExtra(c, d, extra);
    if h2.Ok? {
      PatchedSeesOnlyColumns(Dict(users[id]), h1.value, h2.value);
    }
  }

  /** The password swap treats keys that are not columns as it treats absent ones. */
  lemma SwapIgnoresExtra(c: Security.Crypto, d: Attrs, extra: Attrs)
    requires forall k :: k in extra ==> k !in Columns && k != "password"
    ensures HashPassword(c, d + extra).Ok? == HashPassword(c, d).Ok?
    ensures var h1, h2 := HashPassword(c, d + extra), HashPassword(c, d);
      h2.Ok? ==> forall k :: k in Columns ==> (k in h1.value <==> k in h2.value) && (k in h2.value ==> h1.value[k] == h2.value[k])
  {
    assert ("password" in d + extra) == ("password" in d);
  }

  /** An empty change set writes nothing. */
  lemma PatchedWithNothing(row: Attrs)
    ensures Patched(row, map[]) == row
  {
  }

  /** Stamping a row's dictionary is the dictionary of the stamped row. */
  lemma StampedDict(u: User, now: int)
    ensures Dict(u)["updated_at" := Int(now)] == Dict(u.(updated_at := now))
  {
  }

  /** An empty change set only refreshes `updated_at`. */
  lemma UpdateWithNoChanges(users: map<Uuid, User>, id: Uuid, c: Security.Crypto, now: int)
    requires id in users && users[id].id == id
    requires EmailsUnique(users)
    ensures Updated(users, id, Changes(map[]), c, now) == Ok(users[id].(updated_at := now))
  {
    var u := users[id];
    PatchedWithNothing(Dict(u));
    StampedDict(u, now);
    ToUserOfDict(u.(updated_at := now));
    forall k | k in users && k != id ensures users[k].email != u.email {
    }
  }

  /** A column of the patched, stamped row: the change set's value if it names the column, else the old one. */
  lemma StampedPatchEntry(row: Attrs, data: Attrs, now: int, k: string)
    requires k in row && k != "updated_at"
    ensures var a := Patched(row, data)["updated_at" := Int(now)];
      k in a && a[k] == if k in data then data[k] else row[k]
  {
  }

  /**
   * The change set of a `UserUpdate` after the password swap: the given
   * profile fields under their own names, the hash of a given password
   * under `hashed_password`, and neither key nor timestamp.
   */
  lemma SchemaChangeSet(u: UserUpdate, c: Security.Crypto)
    requires u.password != Set(None)
    ensures HashPassword(c, DumpSet(u)).Ok?
    ensures var h := HashPassword(c, DumpSet(u)).value;
      && ("email" in h <==> u.email.Set?) && (u.email.Set? ==> h["email"] == FromOptStr(u.email.given))
      && ("first_name" in h <==> u.first_name.Set?) && (u.first_name.Set? ==> h["first_name"] == FromOptStr(u.first_name.given))
      && ("last_name" in h <==> u.last_name.Set?) && (u.last_name.Set? ==> h["last_name"] == FromOptStr(u.last_name.given))
  {
    var d := DumpSet(u);
    DumpSetValues(u);
    assert "email" != "password" && "email" != "hashed_password";
    assert "first_name" != "password" && "first_name" != "hashed_password";
    assert "last_name" != "password" && "last_name" != "hashed_password";
  }

  /** The rest of the change set of a `UserUpdate`: the flags, the hash, and no key or timestamp. */
  lemma SchemaChangeSetRest(u: UserUpdate, c: Security.Crypto)
    requires u.password != Set(None)
    ensures HashPassword(c, DumpSet(u)).Ok?
    ensures var h := HashPassword(c, DumpSet(u)).value;
      && ("is_active" in h <==> u.is_active.Set?) && (u.is_active.Set? ==> h["is_active"] == FromOptBool(u.is_active.given))
      && ("is_superuser" in h <==> u.is_superuser.Set?)
      && (u.is_superuser.Set? ==> h["is_superuser"] == FromOptBool(u.is_superuser.given))
      && ("hashed_password" in h <==> u.password.Set?)
      && (u.password.Set? ==> h["hashed_password"] == Str(Security.GetPasswordHash(c, u.password.given.value)))
      && "id" !in h && "created_at" !in h
  {
    var d := DumpSet(u);
    DumpSetValues(u);
    assert "is_active" != "password" && "is_active" != "hashed_password";
    assert "is_superuser" != "password" && "is_superuser" != "hashed_password";
    assert "id" != "password" && "id" != "hashed_password" && "created_at" != "password" && "created_at" != "hashed_password";
    assert "id" !in d && "created_at" !in d && "hashed_password" !in d;
  }

  /** The password swap leaves every other attribute as it was. */
  lemma SwapKeeps(c: Security.Crypto, data: Attrs, k: string)
    requires HashPassword(c, data).Ok? && k != "password" && k != "hashed_password"
    ensures var h := HashPassword(c, data).value;
      (k in h <==> k in data) && (k in data ==> h[k] == data[k])
  {
  }

  /** The stored row holds each column's attribute value. */
  lemma StoredColumn(a: Attrs, k: string)
    requires ToUser(a).Some? && k in Columns
    ensures Dict(ToUser(a).value)[k] == a[k]
  {
    DictOfToUser(a);
  }

  /** The row an update saves, before the constraints are checked. */
  lemma UpdatedRow(users: map<Uuid, User>, id: Uuid, objIn: UpdateInput, c: Security.Crypto, now: int)
    requires id in users
    requires Updated(users, id, objIn, c, now).Ok?
    ensures HashPassword(c, UpdateData(objIn)).Ok?
    ensures var a := Patched(Dict(users[id]), HashPassword(c, UpdateData(objIn)).value)["updated_at" := Int(now)];
      ToUser(a).Some? && Updated(users, id, objIn, c, now).value == ToUser(a).value
  {
  }

  /** The primary key an update writes: a given UUID, else the row's own. */
  function NewId(users: map<Uuid, User>, id: Uuid, data: Attrs): Uuid
    requires id in users
  {
    if "id" in data && data["id"].Id? then data["id"].u else users[id].id
  }

  /** The email an update writes: a given string, else the row's own. */
  function NewEmail(users: map<Uuid, User>, id: Uuid, data: Attrs): string
    requires id in users
  {
    if "email" in data && data["email"].Str? then data["email"].s else users[id].email
  }

  /**
   * The change sets an update of the row `id` can commit: a string password,
   * a well-typed value for each column named (except `updated_at`, and a
   * `hashed_password` that a password overrides, since both are written
   * over), a primary key that is the row's own or unused, and an email that
   * no other row has.
   */
  predicate UpdateAccepted(users: map<Uuid, User>, id: Uuid, data: Attrs)
    requires id in users
  {
    && ("password" in data ==> data["password"].Str?)
    && (forall k :: k in data && k in Columns && k != "updated_at" && !(k == "hashed_password" && "password" in data)
          ==> ColumnTyped(k, data[k]))
    && (NewId(users, id, data) == id || NewId(users, id, data) !in users)
    && !EmailTaken(users, NewEmail(users, id, data), Some(id))
  }

  /** A column of the attributes an update saves. */
  lemma UpdatedRowColumn(users: map<Uuid, User>, id: Uuid, data: Attrs, c: Security.Crypto, now: int, k: string)
    requires id in users && HashPassword(c, data).Ok? && k in Columns
    ensures var a := Patched(Dict(users[id]), HashPassword(c, data).value)["updated_at" := Int(now)];
      k in a && a[k] ==
        if k == "updated_at" then Int(now)
        else if k == "hashed_password" && "password" in data then Str(Security.GetPasswordHash(c, data["password"].s))
        else if k in data then data[k]
        else Dict(users[id])[k]
  {
    var h := HashPassword(c, data).value;
    if k != "updated_at" {
      StampedPatchEntry(Dict(users[id]), h, now, k);
      if k != "hashed_password" {
        assert k != "password";
        SwapKeeps(c, data, k);
      }
    }
  }

  /** The row an update saves has the new key and the new email. */
  lemma UpdatedRowIdentity(users: map<Uuid, User>, id: Uuid, data: Attrs, c: Security.Crypto, now: int)
    requires id in users && HashPassword(c, data).Ok?
    requires ToUser(Patched(Dict(users[id]), HashPassword(c, data).value)["updated_at" := Int(now)]).Some?
    ensures var row := ToUser(Patched(Dict(users[id]), HashPassword(c, data).value)["updated_at" := Int(now)]).value;
      row.id == NewId(users, id, data) && row.email == NewEmail(users, id, data)
  {
    var a := Patched(Dict(users[id]), HashPassword(c, data).value)["updated_at" := Int(now)];
    var row := ToUser(a).value;
    UpdatedRowColumn(users, id, data, c, now, "id");
    UpdatedRowColumn(users, id, data, c, now, "email");
    StoredColumn(a, "id");
    StoredColumn(a, "email");
    DictEntries(row);
    DictEntries(users[id]);
  }

  /** The attributes an update saves form a row exactly when the columns it names are well typed. */
  lemma UpdatedRowStorable(users: map<Uuid, User>, id: Uuid, data: Attrs, c: Security.Crypto, now: int)
    requires id in users && HashPassword(c, data).Ok?
    ensures var a := Patched(Dict(users[id]), HashPassword(c, data).value)["updated_at" := Int(now)];
      Storable(a) <==>
        forall k :: k in data && k in Columns && k != "updated_at" && !(k == "hashed_password" && "password" in data)
          ==> ColumnTyped(k, data[k])
  {
    var a := Patched(Dict(users[id]), HashPassword(c, data).value)["updated_at" := Int(now)];
    ToUserOfDict(users[id]);
    if forall k :: k in data && k in Columns && k != "updated_at" && !(k == "hashed_password" && "password" in data)
        ==> ColumnTyped(k, data[k]) {
      forall k | k in Columns ensures k in a && ColumnTyped(k, a[k]) {
        UpdatedRowColumn(users, id, data, c, now, k);
        StorableTyped(Dict(users[id]), k);
      }
      TypedIsStorable(a);
    } else {
      var k :| k in data && k in Columns && k != "updated_at" && !(k == "hashed_password" && "password" in data)
        && !ColumnTyped(k, data[k]);
      UpdatedRowColumn(users, id, data, c, now, k);
      if Storable(a) {
        StorableTyped(a, k);
      }
    }
  }

  /**
   * An update commits exactly when the database accepts its change set:
   * then it is neither the `TypeError` nor a refused row nor a unique violation.
   */
  lemma UpdatedSucceedsIff(users: map<Uuid, User>, id: Uuid, objIn: UpdateInput, c: Security.Crypto, now: int)
    requires id in users
    ensures Updated(users, id, objIn, c, now).Ok? <==> UpdateAccepted(users, id, UpdateData(objIn))
  {
    var data := UpdateData(objIn);
    if HashPassword(c, data).Ok? {
      var a := Patched(Dict(users[id]), HashPassword(c, data).value)["updated_at" := Int(now)];
      UpdatedRowStorable(users, id, data, c, now);
      if Storable(a) {
        UpdatedRowIdentity(users, id, data, c, now);
      }
    }
  }

  /** An update stamps `updated_at` with `now`, whatever the change set says. */
  lemma UpdatedStamp(users: map<Uuid, User>, id: Uuid, objIn: UpdateInput, c: Security.Crypto, now: int)
    requires id in users
    ensures var r := Updated(users, id, objIn, c, now);
      r.Ok? ==> r.value.updated_at == now
  {
    if Updated(users, id, objIn, c, now).Ok? {
      UpdatedRow(users, id, objIn, c, now);
    }
  }

  /**
   * After an update every column the change set names holds the given value
   * (an explicit `None` included) and every column it does not name keeps
   * its old value.
   */
  lemma UpdatedColumn(users: map<Uuid, User>, id: Uuid, objIn: UpdateInput, c: Security.Crypto, now: int, k: string)
    requires id in users
    requires k in Columns && k != "updated_at" && k != "hashed_password"
    ensures var r := Updated(users, id, objIn, c, now);
      var data := UpdateData(objIn);
      && (UpdateAccepted(users, id, data) ==> r.Ok?)
      && (r.Ok? ==> Dict(r.value)[k] == if k in data then data[k] else Dict(users[id])[k])
  {
    UpdatedSucceedsIff(users, id, objIn, c, now);
    var r := Updated(users, id, objIn, c, now);
    if r.Ok? {
      UpdatedRow(users, id, objIn, c, now);
      var data := UpdateData(objIn);
      var h := HashPassword(c, data).value;
      var a := Patched(Dict(users[id]), h)["updated_at" := Int(now)];
      StampedPatchEntry(Dict(users[id]), h, now, k);
      SwapKeeps(c, data, k);
      StoredColumn(a, k);
    }
  }

  /**
   * The stored hash after an update: that of a given plaintext password,
   * else a given `hashed_password`, else the old one.
   */
  lemma UpdatedPassword(users: map<Uuid, User>, id: Uuid, objIn: UpdateInput, c: Security.Crypto, now: int)
    requires id in users
    ensures var r := Updated(users, id, objIn, c, now);
      var data := UpdateData(objIn);
      r.Ok? ==>
        && ("password" in data ==> r.value.hashed_password == Security.GetPasswordHash(c, data["password"].s))
        && ("password" !in data && "hashed_password" in data ==> Str(r.value.hashed_password) == data["hashed_password"])
        && ("password" !in data && "hashed_password" !in data ==> r.value.hashed_password == users[id].hashed_password)
  {
    var r := Updated(users, id, objIn, c, now);
    if r.Ok? {
      UpdatedRow(users, id, objIn, c, now);
      var data := UpdateData(objIn);
      var h := HashPassword(c, data).value;
      var a := Patched(Dict(users[id]), h)["updated_at" := Int(now)];
      StampedPatchEntry(Dict(users[id]), h, now, "hashed_password");
      StoredColumn(a, "hashed_password");
      DictEntries(r.value);
      DictEntries(users[id]);
    }
  }

  /** Updating from a `UserUpdate` schema never changes the primary key or `created_at`. */
  lemma UpdatedFromSchemaKeepsIdentity(users: map<Uuid, User>, id: Uuid, u: UserUpdate, c: Security.Crypto, now: int)
    requires id in users
    ensures var r := Updated(users, id, Schema(u), c, now);
      r.Ok? ==> r.value.id == users[id].id && r.value.created_at == users[id].created_at
  {
    var r := Updated(users, id, Schema(u), c, now);
    if r.Ok? {
      var d := UpdateData(Schema(u));
      assert d == DumpSet(u);
      assert "id" !in d && "created_at" !in d;
      UpdatedColumn(users, id, Schema(u), c, now, "id");
      UpdatedColumn(users, id, Schema(u), c, now, "created_at");
      DictEntries(r.value);
      DictEntries(users[id]);
      assert Id(r.value.id) == Id(users[id].id);
      assert Int(r.value.created_at) == Int(users[id].created_at);
    }
  }

  /**
   * Updating from a `UserUpdate` schema: a name given explicitly (even as
   * `None`) is written, a name left unset keeps its value.
   */
  lemma UpdatedFromSchemaNames(users: map<Uuid, User>, id: Uuid, u: UserUpdate, c: Security.Crypto, now: int)
    requires id in users
    ensures var r := Updated(users, id, Schema(u), c, now);
      && (UpdateAccepted(users, id, DumpSet(u)) ==> r.Ok?)
      && (r.Ok? ==>
        && r.value.first_name == (if u.first_name.Set? then u.first_name.given else users[id].first_name)
        && r.value.last_name == (if u.last_name.Set? then u.last_name.given else users[id].last_name))
  {
    assert UpdateData(Schema(u)) == DumpSet(u);
    UpdatedSucceedsIff(users, id, Schema(u), c, now);
    var r := Updated(users, id, Schema(u), c, now);
    if r.Ok? {
      assert UpdateData(Schema(u)) == DumpSet(u);
      DumpSetValues(u);
      UpdatedColumn(users, id, Schema(u), c, now, "first_name");
      UpdatedColumn(users, id, Schema(u), c, now, "last_name");
      DictEntries(r.value);
      DictEntries(users[id]);
    }
  }

  /**
   * Updating from a `UserUpdate` schema: an email or flag given explicitly
   * is written (so it was not `None`), one left unset keeps its value.
   */
  lemma UpdatedFromSchema(users: map<Uuid, User>, id: Uuid, u: UserUpdate, c: Security.Crypto, now: int)
    requires id in users
    ensures var r := Updated(users, id, Schema(u), c, now);
      var prev := users[id];
      && (UpdateAccepted(users, id, DumpSet(u)) ==> r.Ok?)
      && (r.Ok? ==>
        && (if u.email.Set? then u.email.given == Some(r.value.email) else r.value.email == prev.email)
        && (if u.is_active.Set? then u.is_active.given == Some(r.value.is_active) else r.value.is_active == prev.is_active)
        && (if u.is_superuser.Set? then u.is_superuser.given == Some(r.value.is_superuser)
            else r.value.is_superuser == prev.is_superuser))
  {
    assert UpdateData(Schema(u)) == DumpSet(u);
    UpdatedSucceedsIff(users, id, Schema(u), c, now);
    var r := Updated(users, id, Schema(u), c, now);
    if r.Ok? {
      assert UpdateData(Schema(u)) == DumpSet(u);
      DumpSetValues(u);
      UpdatedColumn(users, id, Schema(u), c, now, "email");
      UpdatedColumn(users, id, Schema(u), c, now, "is_active");
      UpdatedColumn(users, id, Schema(u), c, now, "is_superuser");
      DictEntries(r.value);
      DictEntries(users[id]);
    }
  }

  /**
   * Updating from a `UserUpdate` schema: a given password is stored as its
   * hash, and the stored hash is kept when none is given.
   */
  lemma UpdatedFromSchemaPassword(users: map<Uuid, User>, id: Uuid, u: UserUpdate, c: Security.Crypto, now: int)
    requires id in users
    ensures var r := Updated(users, id, Schema(u), c, now);
      r.Ok? ==>
        if u.password.Set? then
          u.password.given.Some? && r.value.hashed_password == Security.GetPasswordHash(c, u.password.given.value)
        else r.value.hashed_password == users[id].hashed_password
  {
    var r := Updated(users, id, Schema(u), c, now);
    if r.Ok? {
      UpdatedRow(users, id, Schema(u), c, now);
      UpdatedPassword(users, id, Schema(u), c, now);
      assert "hashed_password" !in DumpSet(u);
    }
  }

  /** An explicit `None` for the NOT NULL `email` makes the update fail. */
  lemma UpdateNullEmailRefused(users: map<Uuid, User>, id: Uuid, u: UserUpdate, c: Security.Crypto, now: int)
    requires id in users
    requires u.email == Set(None)
    ensures Updated(users, id, Schema(u), c, now).Err?
  {
    if Updated(users, id, Schema(u), c, now).Ok? {
      UpdatedFromSchema(users, id, u, c, now);
    }
  }

  /**
   * Why an update is refused: a password that is not a string, a row the
   * column types refuse, a new primary key that another row has, or a
   * new email that another row has.
   */
  lemma UpdatedRefusals(users: map<Uuid, User>, id: Uuid, objIn: UpdateInput, c: Security.Crypto, now: int)
    requires id in users
    ensures var r := Updated(users, id, objIn, c, now);
      var data := UpdateData(objIn);
      var newId := NewId(users, id, data);
      var newEmail := NewEmail(users, id, data);
      && (r.Err? ==> r.error in {PasswordNotString, InvalidRow, DuplicateKey("id"), DuplicateKey("email")})
      && (r == Err(DuplicateKey("id")) <==>
            HashPassword(c, data).Ok? && Storable(Patched(Dict(users[id]), HashPassword(c, data).value)["updated_at" := Int(now)])
            && newId != id && newId in users)
      && (r == Err(DuplicateKey("email")) <==>
            HashPassword(c, data).Ok? && Storable(Patched(Dict(users[id]), HashPassword(c, data).value)["updated_at" := Int(now)])
            && (newId == id || newId !in users) && EmailTaken(users, newEmail, Some(id)))
  {
    var data := UpdateData(objIn);
    if HashPassword(c, data).Ok? {
      var a := Patched(Dict(users[id]), HashPassword(c, data).value)["updated_at" := Int(now)];
      if Storable(a) { UpdatedRowIdentity(users, id, data, c, now); }
    }
  }

  /** A change set of names only, each a string or `None`, always commits on a valid table. */
  lemma UpdatedNamesSucceed(users: map<Uuid, User>, order: seq<Uuid>, id: Uuid, d: Attrs, c: Security.Crypto, now: int)
    requires TableValid(users, order) && id in users
    requires forall k :: k in d ==> (k == "first_name" || k == "last_name") && NullableStr(d[k])
    ensures Updated(users, id, Changes(d), c, now).Ok?
  {
    UpdatedSucceedsIff(users, id, Changes(d), c, now);
    assert "password" !in d && "id" !in d && "email" !in d;
    assert NewId(users, id, d) == id && NewEmail(users, id, d) == users[id].email;
    forall k | k in d && k in Columns && k != "updated_at" && !(k == "hashed_password" && "password" in d)
      ensures ColumnTyped(k, d[k])
    {
      assert k == "first_name" || k == "last_name";
    }
    assert !EmailTaken(users, users[id].email, Some(id));
  }

  /** The dictionary update `{"first_name": "Updated"}` commits and writes the new name. */
  lemma UpdatedFirstNameFromDict(users: map<Uuid, User>, order: seq<Uuid>, id: Uuid, c: Security.Crypto, now: int)
    requires TableValid(users, order) && id in users
    ensures var r := Updated(users, id, Changes(map["first_name" := Str("Updated")]), c, now);
      r.Ok? && r.value.first_name == Some("Updated") && r.value.last_name == users[id].last_name
  {
    var d := map["first_name" := Str("Updated")];
    UpdatedNamesSucceed(users, order, id, d, c, now);
    var r := Updated(users, id, Changes(d), c, now);
    UpdatedColumn(users, id, Changes(d), c, now, "first_name");
    UpdatedColumn(users, id, Changes(d), c, now, "last_name");
    DictEntries(r.value);
    DictEntries(users[id]);
  }

  /**
   * The `UserUpdate` schemas the database accepts: no explicit `None` for
   * the password, the email or a flag, and a given email that no other row has.
   * Explicit `None` names are accepted.
   */
  predicate SchemaUpdateAccepted(users: map<Uuid, User>, id: Uuid, u: UserUpdate) {
    && u.password != Set(None) && u.email != Set(None)
    && u.is_active != Set(None) && u.is_superuser != Set(None)
    && (u.email.Set? ==> !EmailTaken(users, u.email.given.value, Some(id)))
  }

  /** The schema update `UserUpdate(first_name="Updated")` commits and writes the new name. */
  lemma UpdatedFirstNameFromSchema(users: map<Uuid, User>, order: seq<Uuid>, id: Uuid, c: Security.Crypto, now: int)
    requires TableValid(users, order) && id in users
    ensures var r := Updated(users, id, Schema(UserUpdate(first_name := Set(Some("Updated")))), c, now);
      r.Ok? && r.value.first_name == Some("Updated") && r.value.last_name == users[id].last_name
  {
    var u := UserUpdate(first_name := Set(Some("Updated")));
    UpdatedFromSchemaSucceeds(users, order, id, u, c, now);
    UpdatedFromSchemaNames(users, id, u, c, now);
  }

  /** The dumped schema is well typed exactly when no explicit `None` is given where NULL is refused. */
  lemma SchemaDataTyped(u: UserUpdate)
    ensures var d := DumpSet(u);
      && (("password" in d ==> d["password"].Str?) <==> u.password != Set(None))
      && ((forall k :: k in d && k in Columns && k != "updated_at" && !(k == "hashed_password" && "password" in d)
             ==> ColumnTyped(k, d[k]))
          <==> u.email != Set(None) && u.is_active != Set(None) && u.is_superuser != Set(None))
  {
    var d := DumpSet(u);
    DumpSetValues(u);
    if u.email != Set(None) && u.is_active != Set(None) && u.is_superuser != Set(None) {
      forall k | k in d && k in Columns && k != "updated_at" && !(k == "hashed_password" && "password" in d)
        ensures ColumnTyped(k, d[k])
      {
        assert k in {"email", "first_name", "last_name", "password", "is_active", "is_superuser"};
      }
    }
    if u.email == Set(None) {
      assert "email" in d && "email" in Columns && !ColumnTyped("email", d["email"]);
    }
    if u.is_active == Set(None) {
      assert "is_active" in d && "is_active" in Columns && !ColumnTyped("is_active", d["is_active"]);
    }
    if u.is_superuser == Set(None) {
      assert "is_superuser" in d && "is_superuser" in Columns && !ColumnTyped("is_superuser", d["is_superuser"]);
    }
  }

  /** A schema never changes the id, and changes the email only to a given string. */
  lemma SchemaDataIdentity(users: map<Uuid, User>, id: Uuid, u: UserUpdate)
    requires id in users && users[id].id == id
    ensures NewId(users, id, DumpSet(u)) == id
    ensures NewEmail(users, id, DumpSet(u)) == if u.email.Set? && u.email.given.Some? then u.email.given.value else users[id].email
  {
    DumpSetValues(u);
  }

  /** An update from a `UserUpdate` schema commits exactly when the schema is accepted. */
  lemma UpdatedFromSchemaSucceeds(users: map<Uuid, User>, order: seq<Uuid>, id: Uuid, u: UserUpdate, c: Security.Crypto, now: int)
    requires TableValid(users, order) && id in users
    ensures Updated(users, id, Schema(u), c, now).Ok? <==> SchemaUpdateAccepted(users, id, u)
  {
    assert UpdateData(Schema(u)) == DumpSet(u);
    UpdatedSucceedsIff(users, id, Schema(u), c, now);
    SchemaDataTyped(u);
    SchemaDataIdentity(users, id, u);
    assert !EmailTaken(users, users[id].email, Some(id));
  }

  /** Two consecutive pages together are the page spanning both. */
  lemma GetMultiPages(t: UserTable, skip: int, n: int, m: int)
    requires t.Valid()
    requires skip >= 0 && n >= 0 && m >= 0
    ensures t.GetMulti(skip, n + m).value == t.GetMulti(skip, n).value + t.GetMulti(skip + n, m).value
  {
    var all, p, q := t.GetMulti(skip, n + m).value, t.GetMulti(skip, n).value, t.GetMulti(skip + n, m).value;
    assert |all| == |p| + |q|;
    forall i | 0 <= i < |all| ensures all[i] == (p + q)[i] {
      if i >= |p| {
        assert (p + q)[i] == q[i - |p|];
      }
    }
  }

  /** A page at least as long as the table lists every row, and only rows. */
  lemma GetMultiAll(t: UserTable, limit: int)
    requires t.Valid()
    requires limit >= |t.order|
    ensures var r := t.GetMulti(0, limit).value;
      |r| == |t.order| && forall u :: u in r <==> u in t.users.Values
  {
    var r := t.GetMulti(0, limit).value;
    forall u | u in t.users.Values ensures u in r {
      var id :| id in t.users && t.users[id] == u;
      var i :| 0 <= i < |t.order| && t.order[i] == id;
      assert r[i] == u;
    }
  }
}
