/**
 * The request and response shapes for users (`schemas/user.py`) and the
 * dictionaries pydantic and `jsonable_encoder` make of them.
 */
module Schemas {
  import opened Wrappers
  import opened Values
  import opened Models

  /**
   * `UserCreate`: the `UserBase` fields with their defaults, plus the
   * required plaintext `password`. Email syntax (`EmailStr`) is not checked.
   */
  datatype UserCreate = UserCreate(
    email: string,
    password: string,
    first_name: Option<string> := None,
    last_name: Option<string> := None,
    is_active: bool := true,
    is_superuser: bool := false)

  /** `jsonable_encoder(user_in)`: every field under its own name. */
  function EncodeCreate(u: UserCreate): (d: Attrs)
    ensures d.Keys == {"email", "password", "first_name", "last_name", "is_active", "is_superuser"}
    ensures d["password"] == Str(u.password)
  {
    map[
      "email" := Str(u.email), "password" := Str(u.password),
      "first_name" := FromOptStr(u.first_name), "last_name" := FromOptStr(u.last_name),
      "is_active" := Bool(u.is_active), "is_superuser" := Bool(u.is_superuser)]
  }

  /**
   * One field of a partial-update schema: never given (the default `None`
   * is then used), or given explicitly, possibly as `None`.
   */
  datatype Field<T> = Unset | Set(given: Option<T>) {
    /** The attribute's value: `None` unless given a value. */
    function Get(): Option<T> {
      if Set? then given else None
    }
  }

  /** `UserUpdate`: every field optional and `None` by default. */
  datatype UserUpdate = UserUpdate(
    email: Field<string> := Unset,
    first_name: Field<string> := Unset,
    last_name: Field<string> := Unset,
    password: Field<string> := Unset,
    is_active: Field<bool> := Unset,
    is_superuser: Field<bool> := Unset)

  /** The column value of an optional flag: NULL for `None`. */
  function FromOptBool(o: Option<bool>): (v: Value)
    ensures v.Null? <==> o.None?
    ensures o.Some? ==> v.Bool? && v.b == o.value
  {
    if o.Some? then Bool(o.value) else Null
  }

  function PutStr(d: Attrs, k: string, f: Field<string>): Attrs {
    if f.Set? then d[k := FromOptStr(f.given)] else d
  }

  function PutBool(d: Attrs, k: string, f: Field<bool>): Attrs {
    if f.Set? then d[k := FromOptBool(f.given)] else d
  }

  /**
   * `model_dump(exclude_unset=True)`: exactly the fields given explicitly,
   * an explicit `None` included.
   */
  function DumpSet(u: UserUpdate): (d: Attrs)
    ensures ("email" in d <==> u.email.Set?) && ("first_name" in d <==> u.first_name.Set?)
    ensures ("last_name" in d <==> u.last_name.Set?) && ("password" in d <==> u.password.Set?)
    ensures ("is_active" in d <==> u.is_active.Set?) && ("is_superuser" in d <==> u.is_superuser.Set?)
    ensures d.Keys <= {"email", "first_name", "last_name", "password", "is_active", "is_superuser"}
    ensures "id" !in d && "hashed_password" !in d && "created_at" !in d && "updated_at" !in d
  {
    var d := PutStr(map[], "email", u.email);
    var d := PutStr(d, "first_name", u.first_name);
    var d := PutStr(d, "last_name", u.last_name);
    var d := PutStr(d, "password", u.password);
    var d := PutBool(d, "is_active", u.is_active);
    PutBool(d, "is_superuser", u.is_superuser)
  }

  /** Each explicitly given field is dumped with its value, an explicit `None` as NULL. */
  lemma DumpSetValues(u: UserUpdate)
    ensures var d := DumpSet(u);
      && (u.password.Set? ==> d["password"] == FromOptStr(u.password.given))
      && (u.email.Set? ==> d["email"] == FromOptStr(u.email.given))
      && (u.first_name.Set? ==> d["first_name"] == FromOptStr(u.first_name.given))
      && (u.last_name.Set? ==> d["last_name"] == FromOptStr(u.last_name.given))
      && (u.is_active.Set? ==> d["is_active"] == FromOptBool(u.is_active.given))
      && (u.is_superuser.Set? ==> d["is_superuser"] == FromOptBool(u.is_superuser.given))
  {
  }

  /** `UserRead`, the public projection: the `UserBase` fields plus id and timestamps. */
  datatype UserRead = UserRead(
    email: string,
    first_name: Option<string>,
    last_name: Option<string>,
    is_active: bool,
    is_superuser: bool,
    id: Uuid,
    created_at: int,
    updated_at: int)

  /**
   * `UserRead.model_validate(user)` (`from_attributes=True`), as `response_model`
   * applies it: the body carries every column of the row except
   * `hashed_password`, each with the row's value, so no password field of
   * either kind leaves the service.
   */
  function ToRead(u: User): (r: UserRead)
    ensures ReadBody(r).Keys == Columns - {"hashed_password"}
    ensures "password" !in ReadBody(r) && "hashed_password" !in ReadBody(r)
    ensures forall k :: k in ReadBody(r) ==> ReadBody(r)[k] == Dict(u)[k]
  {
    var r := UserRead(u.email, u.first_name, u.last_name, u.is_active, u.is_superuser, u.id, u.created_at, u.updated_at);
    ReadBodyKeys(r);
    ReadBodyAgreesWithRow(u, r);
    r
  }

  /** The response body of a `UserRead`. */
  function ReadBody(r: UserRead): Attrs {
    map[
      "email" := Str(r.email), "first_name" := FromOptStr(r.first_name),
      "last_name" := FromOptStr(r.last_name), "is_active" := Bool(r.is_active),
      "is_superuser" := Bool(r.is_superuser), "id" := Id(r.id),
      "created_at" := Int(r.created_at), "updated_at" := Int(r.updated_at)]
  }

  /** A response body has every column but `hashed_password`. */
  lemma ReadBodyKeys(r: UserRead)
    ensures ReadBody(r).Keys == Columns - {"hashed_password"}
    ensures "password" !in ReadBody(r) && "hashed_password" !in ReadBody(r)
  {
  }

  /** The body of a projection that copies the row's fields holds the row's column values. */
  lemma ReadBodyAgreesWithRow(u: User, r: UserRead)
    requires r == UserRead(u.email, u.first_name, u.last_name, u.is_active, u.is_superuser, u.id, u.created_at, u.updated_at)
    ensures forall k :: k in ReadBody(r) ==> ReadBody(r)[k] == Dict(u)[k]
  {
    var b, d := ReadBody(r), Dict(u);
    forall k | k in b ensures b[k] == d[k] {
      assert k in {"email", "first_name", "last_name", "is_active", "is_superuser", "id", "created_at", "updated_at"};
      if k == "email" {
      } else if k == "first_name" {
      } else if k == "last_name" {
      } else if k == "is_active" {
      } else if k == "is_superuser" {
      } else if k == "id" {
      } else if k == "created_at" {
      } else {
        assert k == "updated_at";
      }
    }
  }
}
