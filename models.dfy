/**
 * The `users` table and the declarative base class it extends
 * (`models/user.py`, `db/base_class.py`).
 *
 * A model instance before it is flushed is the dictionary of attributes
 * that `setattr` has put on it (`Attrs`); a stored row is a `User`. `ToUser`
 * is what a flush can store from an instance: every column present with a
 * value of the column's type, `None` only where the column is nullable.
 */
module Models {
  import opened Wrappers
  import opened Values

  /** One row of `users`. Timestamps are seconds. */
  datatype User = User(
    id: Uuid,
    email: string,
    hashed_password: string,
    first_name: Option<string>,
    last_name: Option<string>,
    is_active: bool,
    is_superuser: bool,
    created_at: int,
    updated_at: int)

  /** Attribute name to value, as `setattr` and `jsonable_encoder` see an instance. */
  type Attrs = map<string, Value>

  /** The mapped columns, in declaration order. */
  const ColumnNames: seq<string> :=
    ["id", "email", "hashed_password", "first_name", "last_name",
     "is_active", "is_superuser", "created_at", "updated_at"]

  const Columns: set<string> :=
    {"id", "email", "hashed_password", "first_name", "last_name",
     "is_active", "is_superuser", "created_at", "updated_at"}

  /** Every column name is in the declared order exactly once. */
  lemma ColumnNamesAreColumns()
    ensures forall c :: c in ColumnNames <==> c in Columns
    ensures forall i, j :: 0 <= i < j < |ColumnNames| ==> ColumnNames[i] != ColumnNames[j]
  {
  }

  /** The column value of an optional string: NULL for `None`. */
  function FromOptStr(o: Option<string>): (v: Value)
    ensures v.Null? <==> o.None?
    ensures o.Some? ==> v.Str? && v.s == o.value
  {
    if o.Some? then Str(o.value) else Null
  }

  /** `Base.dict()`: exactly one entry per mapped column, holding the field's value. */
  function Dict(u: User): (d: Attrs)
    ensures d.Keys == Columns
  {
    map[
      "id" := Id(u.id), "email" := Str(u.email), "hashed_password" := Str(u.hashed_password),
      "first_name" := FromOptStr(u.first_name), "last_name" := FromOptStr(u.last_name),
      "is_active" := Bool(u.is_active), "is_superuser" := Bool(u.is_superuser),
      "created_at" := Int(u.created_at), "updated_at" := Int(u.updated_at)]
  }

  /** Each entry of the dictionary holds its field. */
  lemma DictEntries(u: User)
    ensures var d := Dict(u);
      && d["id"] == Id(u.id) && d["email"] == Str(u.email) && d["hashed_password"] == Str(u.hashed_password)
      && d["first_name"] == FromOptStr(u.first_name) && d["last_name"] == FromOptStr(u.last_name)
      && d["is_active"] == Bool(u.is_active) && d["is_superuser"] == Bool(u.is_superuser)
      && d["created_at"] == Int(u.created_at) && d["updated_at"] == Int(u.updated_at)
  {
  }

  /** The dictionary's keys are exactly the declared column names. */
  lemma DictFollowsColumnNames(u: User)
    ensures forall k :: k in Dict(u) <==> k in ColumnNames
  {
    ColumnNamesAreColumns();
  }

  /** A value a `String` column with `nullable=True` accepts. */
  predicate NullableStr(v: Value) {
    v.Null? || v.Str?
  }

  function ToOptStr(v: Value): Option<string>
    requires NullableStr(v)
  {
    if v.Str? then Some(v.s) else None
  }

  /**
   * The attributes form a row of `users`: the UUID primary key, the
   * non-null `email` and `hashed_password` strings, nullable name strings,
   * the two flags and both timestamps. Other attributes are not columns and
   * are not stored.
   */
  predicate Storable(a: Attrs) {
    && "id" in a && "email" in a && "hashed_password" in a && "first_name" in a
    && "last_name" in a && "is_active" in a && "is_superuser" in a
    && "created_at" in a && "updated_at" in a
    && a["id"].Id? && a["email"].Str? && a["hashed_password"].Str?
    && NullableStr(a["first_name"]) && NullableStr(a["last_name"])
    && a["is_active"].Bool? && a["is_superuser"].Bool?
    && a["created_at"].Int? && a["updated_at"].Int?
  }

  /** The row a flush stores from these attributes, or `None` when the database refuses them. */
  function ToUser(a: Attrs): (r: Option<User>)
    ensures r.Some? <==> Storable(a)
  {
    if Storable(a) then
      Some(User(a["id"].u, a["email"].s, a["hashed_password"].s,
        ToOptStr(a["first_name"]), ToOptStr(a["last_name"]),
        a["is_active"].b, a["is_superuser"].b, a["created_at"].i, a["updated_at"].i))
    else None
  }

  /** A row's own column dictionary stores exactly that row. */
  lemma ToUserOfDict(u: User)
    ensures ToUser(Dict(u)) == Some(u)
  {
    DictEntries(u);
  }

  /** Attributes that hold a row's column values store that row, whatever else they hold. */
  lemma ToUserOfColumnValues(a: Attrs, u: User)
    requires "id" in a && a["id"] == Id(u.id)
    requires "email" in a && a["email"] == Str(u.email)
    requires "hashed_password" in a && a["hashed_password"] == Str(u.hashed_password)
    requires "first_name" in a && a["first_name"] == FromOptStr(u.first_name)
    requires "last_name" in a && a["last_name"] == FromOptStr(u.last_name)
    requires "is_active" in a && a["is_active"] == Bool(u.is_active)
    requires "is_superuser" in a && a["is_superuser"] == Bool(u.is_superuser)
    requires "created_at" in a && a["created_at"] == Int(u.created_at)
    requires "updated_at" in a && a["updated_at"] == Int(u.updated_at)
    ensures ToUser(a) == Some(u)
  {
  }

  /** What is stored is what the column attributes held, column by column. */
  lemma DictOfToUser(a: Attrs)
    requires ToUser(a).Some?
    ensures forall c :: c in Columns ==> Dict(ToUser(a).value)[c] == a[c]
  {
    var d := Dict(ToUser(a).value);
    DictEntries(ToUser(a).value);
    assert d["first_name"] == a["first_name"] && d["last_name"] == a["last_name"];
    assert d["id"] == a["id"] && d["email"] == a["email"] && d["hashed_password"] == a["hashed_password"];
    assert d["is_active"] == a["is_active"] && d["is_superuser"] == a["is_superuser"];
    assert d["created_at"] == a["created_at"] && d["updated_at"] == a["updated_at"];
  }

  /** `v` has the type the column `k` stores: a UUID, a string, a nullable string, a flag or a timestamp. */
  predicate ColumnTyped(k: string, v: Value) {
    if k == "id" then v.Id?
    else if k == "email" || k == "hashed_password" then v.Str?
    else if k == "first_name" || k == "last_name" then NullableStr(v)
    else if k == "is_active" || k == "is_superuser" then v.Bool?
    else if k == "created_at" || k == "updated_at" then v.Int?
    else true
  }

  /** Attributes holding a well-typed value for every column form a row. */
  lemma TypedIsStorable(a: Attrs)
    requires forall k :: k in Columns ==> k in a && ColumnTyped(k, a[k])
    ensures Storable(a)
  {
    assert "id" in Columns && "email" in Columns && "hashed_password" in Columns;
    assert "first_name" in Columns && "last_name" in Columns && "is_active" in Columns;
    assert "is_superuser" in Columns && "created_at" in Columns && "updated_at" in Columns;
  }

  /** Every column of a storable attribute map is well typed. */
  lemma StorableTyped(a: Attrs, k: string)
    requires Storable(a) && k in Columns
    ensures k in a && ColumnTyped(k, a[k])
  {
  }

  /** The columns with a default: the primary key, the names and the two flags. */
  const DefaultedColumns: set<string> := {"id", "first_name", "last_name", "is_active", "is_superuser"}

  /** The default of a defaulted column; `freshId` is the `uuid4()` drawn for this INSERT. */
  function ColumnDefault(k: string, freshId: Uuid): Value {
    if k == "id" then Id(freshId)
    else if k == "is_active" then Bool(true)
    else if k == "is_superuser" then Bool(false)
    else Null
  }

  /**
   * The value an INSERT writes for an attribute `k` set to `v`. SQLAlchemy leaves
   * a `None` attribute out of the INSERT when its column has a default, so such a
   * column gets its default; every other value is written as it is.
   */
  function InsertValue(k: string, v: Value, freshId: Uuid): Value {
    if k in DefaultedColumns && v.Null? then ColumnDefault(k, freshId) else v
  }

  /**
   * The column defaults an INSERT applies: `uuid4()` for an unset (or `None`)
   * primary key, `True` for an unset (or `None`) `is_active`, `False` for
   * `is_superuser`, NULL for the nullable names. `email` and `hashed_password`
   * have none.
   */
  function WithInsertDefaults(a: Attrs, freshId: Uuid): (r: Attrs)
    ensures r.Keys == a.Keys + DefaultedColumns
    ensures forall k :: k in a && !a[k].Null? ==> r[k] == a[k]
    ensures forall k :: k in a && k !in DefaultedColumns ==> r[k] == a[k]
    ensures forall k :: k in DefaultedColumns && (k !in a || a[k].Null?) ==> r[k] == ColumnDefault(k, freshId)
    ensures r["id"] == if "id" in a && !a["id"].Null? then a["id"] else Id(freshId)
    ensures ("is_active" !in a || a["is_active"].Null?) ==> r["is_active"] == Bool(true)
    ensures ("is_superuser" !in a || a["is_superuser"].Null?) ==> r["is_superuser"] == Bool(false)
    ensures ("first_name" !in a || a["first_name"].Null?) ==> r["first_name"] == Null
    ensures ("last_name" !in a || a["last_name"].Null?) ==> r["last_name"] == Null
  {
    map k | k in a.Keys + DefaultedColumns ::
      if k in a then InsertValue(k, a[k], freshId) else ColumnDefault(k, freshId)
  }

  /** The attributes `Base.__init__(**kwargs)` leaves on a new instance. */
  function Initialized(kwargs: Attrs, now: int): (attrs: Attrs)
    ensures attrs.Keys == kwargs.Keys + {"updated_at"}
    ensures forall k :: k in kwargs && k != "updated_at" ==> attrs[k] == kwargs[k]
    ensures attrs["updated_at"] == Int(now)
  {
    kwargs["updated_at" := Int(now)]
  }

  /**
   * `Base.__init__`: assigns every keyword argument to the attribute of the
   * same name, then stamps `updated_at` with `now`, overwriting a passed value.
   */
  method Construct(kwargs: Attrs, now: int) returns (attrs: Attrs)
    ensures attrs.Keys == kwargs.Keys + {"updated_at"}
    ensures forall k :: k in kwargs && k != "updated_at" ==> attrs[k] == kwargs[k]
    ensures attrs["updated_at"] == Int(now)
    ensures attrs == Initialized(kwargs, now)
  {
    attrs := map[];
    var pending := kwargs.Keys;
    while pending != {}
      invariant pending <= kwargs.Keys
      invariant attrs.Keys == kwargs.Keys - pending
      invariant forall k :: k in attrs ==> attrs[k] == kwargs[k]
      decreases pending
    {
      var key :| key in pending;
      attrs := attrs[key := kwargs[key]];
      pending := pending - {key};
    }
    attrs := attrs["updated_at" := Int(now)];
  }

  /** `__repr__`: `<ClassName(id=...)>`, with `None` when the instance has no id yet. */
  function Repr(className: string, id: Option<Uuid>): (r: string)
    ensures |r| >= |className| + 7
    ensures r[..|className| + 5] == "<" + className + "(id=" && r[|r| - 2..] == ")>"
    ensures r[|className| + 5..|r| - 2] == if id.Some? then UuidStr(id.value) else "None"
  {
    var head, text := "<" + className + "(id=", if id.Some? then UuidStr(id.value) else "None";
    var r := head + text + ")>";
    assert r[..|head|] == head && r[|head|..|r| - 2] == text && r[|r| - 2..] == ")>";
    r
  }

  /** Two instances of one class have the same representation only if they have the same id. */
  lemma ReprIdentifiesId(className: string, a: Option<Uuid>, b: Option<Uuid>)
    ensures Repr(className, a) == Repr(className, b) ==> a == b
  {
    var head := "<" + className + "(id=";
    var ma := if a.Some? then UuidStr(a.value) else "None";
    var mb := if b.Some? then UuidStr(b.value) else "None";
    var ra, rb := Repr(className, a), Repr(className, b);
    assert ra == head + ma + ")>" && rb == head + mb + ")>";
    if ra == rb {
      assert ra[|head|..|ra| - 2] == ma;
      assert rb[|head|..|rb| - 2] == mb;
      if a.Some? && b.Some? {
        UuidStrInjective(a.value, b.value);
      }
    }
  }
}
