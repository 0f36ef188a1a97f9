# backend-core user service, modelled in Dafny

backend-core is a FastAPI service backed by SQLAlchemy and PostgreSQL. Its
core, modelled here, is the following:

- the `users` table and the declarative base class it extends;
- the generic data-access class `CRUDBase` (`get`, `get_multi`, `create`,
  `update`, `remove`);
- the registration and profile endpoints;
- the login endpoint, which works like an OAuth2 password grant and issues
  HS256-signed JWT bearer tokens;
- the dependency that resolves a bearer token to the stored user;
- the validator that splits `BACKEND_CORS_ORIGINS`.

The modules follow the program:

| module | models |
|---|---|
| `Values` | UUIDs and their canonical text form, and `Value` (the dynamic values a column or payload holds) |
| `Settings` | the security defaults and `assemble_cors_origins`, with Python's `str.split(",")` and `str.strip()` |
| `Security` | password hashing and token creation |
| `Models` | the `User` row, `Base.__init__`, `dict()`, `__repr__`, and which attribute sets a flush can store |
| `Schemas` | `UserCreate`, `UserUpdate` (a set/unset flag per field), `UserRead`, and the dictionaries made of them |
| `Crud` | the class `UserTable` with its methods |
| `Http` | the `HTTPException`s the endpoints raise |
| `Deps` | `decode_token`, `get_user_by_email`, `get_current_user` |
| `Auth` | `login` |
| `UserEndpoints` | `create_user`, `read_user_me`, `update_user_me` |

`UserTable` is the CRUD class's table. Its fields are `users` (the rows by
primary key) and `order` (the order a query without ORDER BY returns them in).
Its invariant `Valid()` holds after every method. It states that:

- each row is stored under its own id;
- `order` lists each key exactly once;
- no two rows share an email.

Each method is one transaction. It either commits, with the new state stated
in its `ensures`, or fails with a `DbError` and leaves both fields unchanged.
The outcome of each CRUD operation is a function of the old state (`Created`,
`Updated`, `Saved`, `Inserted`). The lemmas state what those functions
promise.

The database refuses a row when any of these holds:

- a NOT NULL column without a default is missing or `None` (an INSERT leaves a
  `None` attribute out, so a column with a default gets its default);
- a value has the wrong type;
- the id or the email is already taken.

bcrypt and JWT signing are foreign code. They are fields of a `Crypto` value
that is passed in as a parameter. The only facts assumed about them are the
predicates `HashLawful` and `JwtLawful`:

- a hash verifies its own password and no other;
- a token decodes, with the same key and algorithm, to its claims until its
  `exp` has passed.

The lemmas that need these facts take them as `requires`.

Clock readings are integer seconds, one parameter per `datetime.now()` call.
The id that `uuid4()` would draw and the setting `SECRET_KEY` are parameters
too.

## Model

| member | source | states |
|---|---|---|
| Values.UuidStrInjective | backend_core/db/utils.py:78 | distinct UUIDs have distinct canonical 36-character text forms, so the text names the id |
| Values.ParseHexOfHex | backend_core/db/base_class.py:39 | the fixed-width lower-case hex rendering of a UUID parses back to the same number |
| Values.UngroupGroup | backend_core/db/base_class.py:39 | inserting the four hyphens of the 8-4-4-4-12 layout can be undone |
| Settings.TrimLeft | backend_core/core/settings.py:33 | the result is a suffix of the input; only whitespace was dropped; it does not start with whitespace |
| Settings.TrimRight | backend_core/core/settings.py:33 | the result is a prefix of the input; only whitespace was dropped; it does not end with whitespace |
| Settings.Strip | backend_core/core/settings.py:33 | the result is the slice of the input left between its leading and its trailing whitespace, and has no whitespace at either end |
| Settings.Split | backend_core/core/settings.py:33 | `split(",")` has one more piece than the string has commas, so "" gives one empty piece |
| Settings.SplitPiecesHaveNoComma | backend_core/core/settings.py:33 | no piece of a split contains a comma |
| Settings.JoinSplit | backend_core/core/settings.py:33 | joining the pieces with "," gives the original string |
| Settings.SplitJoin | backend_core/core/settings.py:33 | splitting a join of comma-free pieces gives the pieces back |
| Settings.SplitOfCommaFree | backend_core/core/settings.py:33 | splitting a comma-free piece followed by "," and a tail gives the piece and then the tail's pieces |
| Settings.StripAll | backend_core/core/settings.py:33 | the comprehension strips each piece and keeps their number and order |
| Settings.AssembleCorsOrigins | backend_core/core/settings.py:29-36 | a string not starting with "[" becomes its stripped comma-separated pieces, as many as commas plus one; a "["-string and a list pass unchanged; any other input is an error that carries the input; the validator repeated in backend_core/core/config.py:31-38 is the same code and is modelled by this one function |
| Settings.CorsOriginsAreCleanPieces | backend_core/core/settings.py:32-33 | no resulting origin contains a comma or starts or ends with whitespace |
| Settings.CorsOfJoinedOrigins | backend_core/core/settings.py:32-33 | comma-free, already stripped origins joined by "," come back as exactly those origins |
| Security.VerifyPassword | backend_core/core/security.py:17-20 | under the hashing assumption a hash accepts the plaintext it was made from, and a plaintext it accepts is the only one that hashes to it |
| Security.GetPasswordHash | backend_core/core/security.py:23-26 | under the hashing assumption the hash verifies its own plaintext and no other |
| Security.VerifyOwnHash | backend_core/core/security.py:17-26 | `verify_password(p, get_password_hash(p))` holds |
| Security.VerifyOtherPassword | backend_core/core/security.py:17-26 | a stored hash rejects every other plaintext |
| Security.HashLawfulIsSatisfiable | backend_core/core/security.py:17-26 | the hashing assumption is consistent: a function meets it |
| Security.ExpiresAt | backend_core/core/security.py:31-34 | a truthy delta gives now + delta; a missing or zero delta gives now + 30 minutes |
| Security.AccessTokenClaims | backend_core/core/security.py:36 | the payload has exactly the keys `exp` and `sub`, with `sub` the email as a string and `exp` the selected expiry |
| Security.CreateAccessToken | backend_core/core/security.py:29-38 | under the token assumption, the token decodes with the same key and HS256 to `{"exp", "sub"}` up to its expiry and fails afterwards |
| Models.ColumnNamesAreColumns | backend_core/models/user.py:22-32 | the declared column order lists each of the nine columns once |
| Models.Dict | backend_core/db/base_class.py:30-32 | `dict()` has exactly one entry per mapped column |
| Models.DictEntries | backend_core/db/base_class.py:30-32 | each entry holds its field's current value |
| Models.DictFollowsColumnNames | backend_core/db/base_class.py:30-32 | the dictionary's keys are exactly the declared column names |
| Models.ToUser | backend_core/models/user.py:22-32 | a flush stores a row exactly when all columns are present with their types and only the name columns are `None` |
| Models.ToUserOfDict | backend_core/models/user.py:22-32 | a row's own column dictionary stores exactly that row |
| Models.DictOfToUser | backend_core/models/user.py:22-32 | what is stored in each column is what the attribute held |
| Models.ToUserOfColumnValues | backend_core/models/user.py:22-32 | attributes holding a row's nine column values store that row, whatever else they hold |
| Models.TypedIsStorable | backend_core/models/user.py:22-32 | attributes that hold every column with its column's type form a row |
| Models.StorableTyped | backend_core/models/user.py:22-32 | a storable row holds every column with its column's type: a UUID id, string email and hash, nullable string names, boolean flags, timestamps |
| Models.WithInsertDefaults | backend_core/models/user.py:22-28 | a column with a default that is unset or `None` gets the default: a fresh UUID for the id, True for `is_active`, False for `is_superuser`, NULL for the names; every other value is kept |
| Crud.InsertDefaultsLeaveOut | backend_core/models/user.py:22-28 | the INSERT adds no attribute other than the columns with a default |
| Models.Initialized | backend_core/db/base_class.py:24-28 | the new instance has every keyword argument under its own name, plus `updated_at`, which is now whatever was passed |
| Models.Construct | backend_core/db/base_class.py:24-28 | every keyword argument is assigned to the same-named attribute, then `updated_at` is overwritten with now, even when passed |
| Models.Repr | backend_core/db/base_class.py:34-39 | the text is `<`, the class name, `(id=`, the canonical id or `None`, and `)>` |
| Models.ReprIdentifiesId | backend_core/db/base_class.py:34-39 | two instances of a class have the same repr only when they have the same id, `None` included |
| Schemas.EncodeCreate | backend_core/schemas/user.py:8-23 | the encoded `UserCreate` has exactly the six fields, the plaintext password among them |
| Schemas.DumpSet | backend_core/schemas/user.py:26-34 | `model_dump(exclude_unset=True)` holds exactly the explicitly given fields, an explicit `None` included, and never the id, the hash or a timestamp |
| Schemas.DumpSetValues | backend_core/schemas/user.py:26-34 | each explicitly given field is dumped with its value, an explicit `None` as NULL |
| Schemas.ToRead | backend_core/schemas/user.py:37-44 | the public projection carries every column except `hashed_password`, no `password` field, and each field equals the row's column value |
| Schemas.ReadBodyKeys | backend_core/schemas/user.py:37-44 | a response body has every column except `hashed_password`, and no `password` field |
| Schemas.ReadBodyAgreesWithRow | backend_core/schemas/user.py:37-44 | a projection copying the row's fields has the row's column values in its body |
| Crud.NoRecordMessage | backend_core/db/utils.py:78 | the text is "No record found with id=" followed by the id's canonical form |
| Crud.NoRecordMessageNamesId | backend_core/db/utils.py:78 | the message "No record found with id=…" identifies the id |
| Crud.Replace | backend_core/db/utils.py:65-70 | re-keying a row keeps its position in the table order and changes nothing else |
| Crud.Without | backend_core/db/utils.py:79-80 | the order after a delete holds exactly the other ids |
| Crud.WithoutKeepsDistinct | backend_core/db/utils.py:79-80 | deleting keeps the order duplicate-free |
| Crud.ReplaceKeepsDistinct | backend_core/db/utils.py:65-70 | re-keying to an unused id keeps the order duplicate-free and covers exactly the new key set |
| Crud.InsertKeepsEmailsUnique | backend_core/models/user.py:23 | adding a row whose email no row has keeps emails unique |
| Crud.SaveKeepsEmailsUnique | backend_core/models/user.py:23 | saving a row whose email no other row has keeps emails unique |
| Crud.InsertKeepsValid | backend_core/db/utils.py:49-51 | an INSERT of an unused id with an unused email keeps the table invariant |
| Crud.SaveKeepsValid | backend_core/db/utils.py:69-71 | a save the key and email constraints accept keeps the table invariant |
| Crud.RemoveKeepsValid | backend_core/db/utils.py:79-80 | a delete keeps the table invariant |
| Crud.SaveInPlace | backend_core/db/utils.py:69-71 | writing a row back under its own key replaces just that row and keeps the order |
| Crud.Inserted | backend_core/db/utils.py:49-51 | a stored row is the row the attributes with their defaults describe; the INSERT commits if and only if that row exists, its id is unused and no row has its email; an unstorable row is `InvalidRow`; a duplicate `id` is exactly a used id, a duplicate `email` exactly an unused id with a taken email; no other error |
| Crud.Saved | backend_core/db/utils.py:69-71 | the write succeeds exactly when the new id is the row's own or unused and no other row has the email, and then stores the row as given |
| Crud.HashPassword | backend_core/db/utils.py:41-44 | a string `password` is removed and its hash stored as `hashed_password`, all other keys kept; a non-string one is an error; without one nothing changes |
| Crud.SwapKeeps | backend_core/db/utils.py:61-63 | the password swap keeps every attribute other than the two password keys, and adds none |
| Crud.Stamped | backend_core/db/utils.py:47-48 | `created_at` and `updated_at` get the two readings, everything else is kept |
| Crud.StampedLeavesOut | backend_core/db/utils.py:46-48 | the constructor and the two stamps add no attribute other than the timestamps |
| Crud.InsertedKeeps | backend_core/db/utils.py:46-48 | every attribute other than the stamps reaches the INSERT unchanged, except that a `None` in a column with a default becomes the default |
| Crud.Patched | backend_core/db/utils.py:65-67 | each attribute named in the change set takes the given value, each other keeps its value, and no attribute is added |
| Crud.SetFields | backend_core/db/utils.py:65-67 | the `setattr` loop over the columns computes exactly `Patched` |
| Crud.PatchStep | backend_core/db/utils.py:65-67 | processing one more column name keeps the loop invariant |
| Crud.PatchedUpToAll | backend_core/db/utils.py:65-67 | once every column name is processed the attributes are the patched row |
| Crud.UserTable.Get | backend_core/db/utils.py:30-32 | the row stored under the id, or none when there is none |
| Crud.UserTable.GetMulti | backend_core/db/utils.py:34-36 | with defaults 0 and 100, the contiguous slice of table order from `skip` of length min(limit, max(0, n - skip)); a negative bound is an error |
| Crud.GetMultiPages | backend_core/db/utils.py:34-36 | two consecutive pages together are the page spanning both |
| Crud.GetMultiAll | backend_core/db/utils.py:34-36 | a page at least as long as the table lists every row and only rows |
| Crud.UserTable.Insert | backend_core/db/utils.py:49-51 | the insert adds exactly the stored row at the end of the order, or fails and changes nothing; the invariant holds |
| Crud.UserTable.Save | backend_core/db/utils.py:69-71 | the commit replaces the row, possibly under a new id, or fails on a taken id or email and changes nothing |
| Crud.Created | backend_core/db/utils.py:38-52 | a non-string password is the `TypeError` and nothing else is; a created row never collides with a stored id or email (when it commits is `Crud.CreatedSucceedsIff`) |
| Crud.UserTable.Create | backend_core/db/utils.py:38-52 | computes `Created`: adds exactly one row and leaves every existing row as it was, or fails and changes nothing; a later `get` finds the new row |
| Crud.StoredFromSchema | backend_core/db/utils.py:40-48 | a `UserCreate` payload makes a storable row: its fields, the hash of its password, the new id and the two stamps |
| Crud.CreatedFromSchema | backend_core/db/utils.py:38-52 | creating from a `UserCreate` stores exactly that row, and fails with the email unique violation exactly when the email is taken |
| Crud.CreatedIgnoresInitStamp | backend_core/db/utils.py:46-48 | the constructor's own `updated_at` stamp is always overwritten |
| Crud.CreatedStamps | backend_core/db/utils.py:47-48 | the created row carries the two readings, so under a clock that does not run backwards `created_at <= updated_at` |
| Crud.CreatedHashesPassword | backend_core/db/utils.py:41-44 | a plaintext password is stored as its hash, and the password verifies against it |
| Crud.PayloadColumnKept | backend_core/db/utils.py:40-46 | the insert sees the payload's own value for every column other than the password and stamps, or the column default for a `None` in a column with one |
| Crud.CreatedCopiesColumn | backend_core/db/utils.py:40-48 | every other column the payload gives is stored as given, a given id included, except that a `None` id or flag stores the column default |
| Crud.CreatedNeedsEmail | backend_core/models/user.py:23 | a payload without `email` is refused |
| Crud.CreatedNeedsPassword | backend_core/models/user.py:24 | a payload with neither `password` nor `hashed_password` is refused |
| Crud.CreatedRowColumn | backend_core/db/utils.py:40-51 | each column the INSERT sees: the stamps, the hash of a given password, a given value (its default for a `None` in a defaulted column), else the column default; `email` and `hashed_password` are absent unless given |
| Crud.CreatedRowStorable | backend_core/db/utils.py:40-51 | the inserted attributes form a row if and only if the payload has an email, a password or hash, and an accepted value for every column given |
| Crud.CreatedColumnTyped | backend_core/db/utils.py:40-51 | every column of a storable payload's INSERT has the column's type |
| Crud.CreatedColumnGiven | backend_core/db/utils.py:40-51 | a column the payload gives (other than the stamps and an overridden `hashed_password`) reaches the INSERT as given, or as its default for a `None` |
| Crud.CreatedColumnDefault | backend_core/models/user.py:22-28 | a defaulted column the payload leaves out gets its column default |
| Crud.InsertValueTyped | backend_core/models/user.py:22-28 | an accepted value, or the default a `None` stands for, has the column's type |
| Crud.CreatedRowIdentity | backend_core/db/utils.py:40-51 | the inserted row's id is the given UUID or the drawn `uuid4()`, its email the given one |
| Crud.CreatedSucceedsIff | backend_core/db/utils.py:38-52 | a create commits if and only if the payload is storable (string password, email, password or hash, typed columns), its id is unused and no row has its email; non-column attributes play no part |
| Crud.CreatedRefusals | backend_core/db/utils.py:38-52 | a refused create is a `TypeError`, a refused row or a duplicate key; `InvalidRow` is exactly an unstorable payload with a string password, a duplicate `id` exactly a used id, a duplicate `email` exactly a taken email under an unused id |
| Crud.CreatedFromDictWithExtras | backend_core/db/base_class.py:24-28 | a dict payload with an email, a password and any non-column attributes commits when the email and the drawn id are free, storing the hash, the defaults and the stamps, and none of the extra attributes |
| Crud.Updated | backend_core/db/utils.py:54-72 | a non-string password is the `TypeError` and nothing else is; the saved row keeps its key or takes an unused one, and no other row has its email |
| Crud.UpdatedRowColumn | backend_core/db/utils.py:61-68 | each column of the saved attributes is the update's reading for `updated_at`, the new hash when a password is given, the given value when named, else the old value |
| Crud.UpdatedRowIdentity | backend_core/db/utils.py:65-67 | the saved row's id and email are the given ones when the change set names them with the right type, else the old ones |
| Crud.UpdatedRowStorable | backend_core/db/utils.py:65-71 | the patched attributes form a row exactly when every column the change set names (other than `updated_at`, and `hashed_password` when a password is given) has its column's type |
| Crud.UpdatedSucceedsIff | backend_core/db/utils.py:54-72 | an update commits if and only if the password is a string, every named column is well typed, the new id is the old one or unused, and no other row has the new email |
| Crud.UpdatedRefusals | backend_core/db/utils.py:54-72 | a refused update is a `TypeError`, a refused row or a duplicate key; a duplicate `id` is exactly a new id that another row has, a duplicate `email` exactly a new email that another row has |
| Crud.UpdatedNamesSucceed | backend_core/db/utils.py:57-72 | on a valid table, a change set of names only, each a string or `None`, always commits |
| Crud.UpdatedFirstNameFromDict | tests/db/test_utils.py:114-140 | on a valid table, the dict update `{"first_name": "Updated"}` commits, writes the name and keeps the last name |
| Crud.UpdatedFirstNameFromSchema | tests/db/test_utils.py:85-112 | on a valid table, `UserUpdate(first_name="Updated")` commits, writes the name and keeps the last name |
| Crud.SchemaDataTyped | backend_core/schemas/user.py:26-34 | a dumped `UserUpdate` passes the column types exactly when it gives no explicit `None` for the email or a flag, and its password is a string exactly when it is not an explicit `None` |
| Crud.SchemaDataIdentity | backend_core/schemas/user.py:26-34 | a dumped `UserUpdate` never changes the id, and changes the email only to a given string |
| Crud.UpdatedFromSchemaSucceeds | backend_core/db/utils.py:57-72 | on a valid table, an update from a `UserUpdate` commits if and only if it gives no explicit `None` password, email or flag and no other row has a given email; explicit `None` names are accepted |
| Crud.UserTable.Update | backend_core/db/utils.py:54-72 | computes `Updated`: replaces the one row (re-keyed if the change set gives an id) and keeps its position, or fails and changes nothing |
| Crud.PatchedSeesOnlyColumns | backend_core/db/utils.py:65-66 | change sets that agree on the attributes act alike |
| Crud.UpdateIgnoresUnknownKeys | backend_core/db/utils.py:65-67 | keys that are not columns make no difference to the update |
| Crud.SwapIgnoresExtra | backend_core/db/utils.py:61-63 | keys that are neither columns nor `password` do not change what the swap does to the columns |
| Crud.UpdateWithNoChanges | backend_core/db/utils.py:68 | an empty change set only refreshes `updated_at` |
| Crud.PatchedWithNothing | backend_core/db/utils.py:65-67 | an empty change set writes nothing |
| Crud.StampedDict | backend_core/db/utils.py:68 | stamping the dictionary gives the dictionary of the stamped row |
| Crud.UpdatedRow | backend_core/db/utils.py:56-68 | a successful update saves the patched, stamped attributes |
| Crud.StampedPatchEntry | backend_core/db/utils.py:65-68 | each column other than `updated_at` holds the change set's value if it names the column, else the old one |
| Crud.StoredColumn | backend_core/db/utils.py:69-71 | the stored row holds each column's attribute value |
| Crud.SchemaChangeSet | backend_core/db/utils.py:57-63 | after the swap a schema's change set holds the given email and names under their own names, and no others of them |
| Crud.SchemaChangeSetRest | backend_core/db/utils.py:57-63 | after the swap a schema's change set holds the given flags and the hash of a given password, and never the id or `created_at` |
| Crud.UpdatedStamp | backend_core/db/utils.py:68 | `updated_at` is the update's reading, whatever the change set says |
| Crud.UpdatedColumn | backend_core/db/utils.py:65-67 | an accepted change set commits; then each column named in it takes the given value, an explicit `None` included, and each other column is unchanged |
| Crud.UpdatedPassword | backend_core/db/utils.py:61-63 | a plaintext password is stored as its hash, else a given `hashed_password`, else the old hash stays |
| Crud.UpdatedFromSchemaKeepsIdentity | backend_core/db/utils.py:57-60 | an update from a schema never changes the id or `created_at` |
| Crud.UpdatedFromSchemaNames | backend_core/db/utils.py:57-67 | an accepted schema commits; then a name set explicitly in it is written, an explicit `None` included, and an unset name keeps its value |
| Crud.UpdatedFromSchema | backend_core/db/utils.py:57-67 | an accepted schema commits; then an email or flag set explicitly in it is written, so it was not `None`, and an unset one keeps its value |
| Crud.UpdatedFromSchemaPassword | backend_core/db/utils.py:57-63 | a schema password is hashed; without one the stored hash stays |
| Crud.UpdateNullEmailRefused | backend_core/models/user.py:23 | an explicit `None` email makes the update fail, since the column is NOT NULL |
| Crud.UserTable.Remove | backend_core/db/utils.py:74-81 | a missing id fails with `NoRecord` and changes nothing; otherwise the row is deleted and returned, and a later `get` finds nothing |
| Deps.DecodeToken | backend_core/core/deps.py:15-24 | the subject is returned only when the token decodes and `sub` is a string; any decode failure gives none |
| Deps.DecodeIssuedTokenSubject | backend_core/core/deps.py:18-21 | a token issued for an email gives that email until it expires, and none afterwards |
| Deps.FirstWithEmail | backend_core/core/deps.py:27-29 | the row at the first position of the table order whose row has the email (no earlier position has it), or none when no row has it |
| Deps.GetUserByEmail | backend_core/core/deps.py:27-29 | a row found has the email and is a stored row |
| Deps.GetUserByEmailFinds | backend_core/core/deps.py:27-29 | the lookup finds a row exactly when some row has the email, and then it is that row |
| Deps.GetCurrentUser | backend_core/core/deps.py:32-50 | 401 with the bearer challenge when the subject is missing, empty or matches no row; otherwise the stored row whose email is the subject; `is_active` is not examined |
| Deps.IssuedTokenResolves | backend_core/core/deps.py:32-50 | a token issued for a stored user resolves to that user, active or not, until it expires, and gives 401 afterwards |
| Deps.EmptySubjectNeverResolves | backend_core/core/deps.py:35-40 | a token for the empty email is always refused |
| Auth.Login | backend_core/api/v1/endpoints/auth.py:15-31 | 401 "Incorrect email or password" exactly when no user has the email or the password does not verify; otherwise a bearer token for that email lasting 1800 seconds |
| Auth.LoginWithOwnPassword | backend_core/api/v1/endpoints/auth.py:18-31 | a stored user's own password logs in, with no `is_active` check |
| Auth.LoginWithOtherPassword | backend_core/api/v1/endpoints/auth.py:19-24 | any other password gets the same 401 as an unknown email |
| Auth.UnknownEmailSkipsVerify | backend_core/api/v1/endpoints/auth.py:19 | when no user matches, the password verifier is not consulted: any verifier gives the same 401 |
| Auth.LoginTokenResolves | backend_core/api/v1/endpoints/auth.py:26-31 | the issued token resolves to the same user for `expires_in` seconds and no longer |
| UserEndpoints.Registered | backend_core/api/v1/endpoints/users.py:26-33 | the new row has the fresh id, the payload's email and names, `get_password_hash` of the payload's password (which, under the hashing assumption, verifies it), both stamps the same instant, is active and not a superuser |
| UserEndpoints.RegisteredIgnoresFlags | backend_core/api/v1/endpoints/users.py:27-33 | the payload's `is_active` and `is_superuser` play no part; a new user is active and not a superuser |
| UserEndpoints.RegisteredPasswordVerifies | backend_core/api/v1/endpoints/users.py:29 | the stored hash verifies the registered password and no other |
| UserEndpoints.RegistrationStorable | backend_core/api/v1/endpoints/users.py:26-33 | the assigned attributes with the column defaults form the registered row |
| UserEndpoints.CreateUser | backend_core/api/v1/endpoints/users.py:17-38 | 400 "Email already registered" with the table unchanged when the email is taken; otherwise exactly the registered row is added, both stamps the same instant; emails stay unique |
| UserEndpoints.ReadUserMe | backend_core/api/v1/endpoints/users.py:41-44 | the current user's columns except `hashed_password`, unchanged |
| UserEndpoints.ProfileUpdated | backend_core/api/v1/endpoints/users.py:54-63 | the password (hashed), email and names are written only when not `None`; id, `created_at` and both flags never change; `updated_at` is now |
| UserEndpoints.UpdateUserMe | backend_core/api/v1/endpoints/users.py:47-66 | saves the updated profile in place; with no proactive check, an email another user has makes the commit fail (500) and changes nothing |
| UserEndpoints.ProfileUpdateAgreesWithCrud | backend_core/db/utils.py:54-72 | without explicit `None`s or flags, `CRUDBase.update` saves the same profile as the endpoint |
| UserEndpoints.ExplicitNoneParts | backend_core/api/v1/endpoints/users.py:58-59 | an explicit `None` name is kept by the endpoint but cleared by `CRUDBase.update`, which commits whenever the rest of the schema is accepted |
| UserEndpoints.ExplicitNoneClears | backend_core/api/v1/endpoints/users.py:58-59 | on a valid table, `UserUpdate(first_name=None)` commits in `CRUDBase.update` with the name cleared and the last name kept, while the endpoint keeps the stored name |

## Left out

- bcrypt, passlib, HMAC-SHA256 and python-jose are not modelled beyond
  `HashLawful` and `JwtLawful`. This covers salts, the hash format, token
  encoding and signature checking. A `Crypto` meeting `HashLawful` is
  exhibited, but none meeting `JwtLawful`.
- Security.JwtLawful: it requires the round trip for every claims map with a
  numeric `exp`. python-jose also rejects a non-string `sub`, an `nbf` in the
  future, a malformed `iat` and others, so a real `jwt` fails it for such
  claims. The model only ever encodes the claims `create_access_token`
  builds, an integer `exp` and a string `sub`, for which it holds.
- The JWT `exp` claim is an integer number of seconds. Fractional seconds and
  time zones are not modelled; all clock readings are integers.
- SQLAlchemy sessions are not modelled: `add`, `commit`, `refresh`, rollback
  and connection handling. Each call is one atomic transition. `refresh`
  reads back what was written.
- Value conversion is not modelled: neither `jsonable_encoder`'s conversions
  nor the database's implicit casts. A payload value must already have its
  column's type, or the row is refused.
- The keys of `jsonable_encoder(db_obj)` in `update` are taken to be the
  mapped columns.
- The timestamp columns' `server_default=func.now()` and `onupdate` are not
  modelled. Every insert and update path assigns both timestamps
  explicitly, so a missing timestamp is treated as refused.
- PostgreSQL does not promise a row order without ORDER BY. The model fixes
  one: insertion order, with a re-keyed row keeping its place.
- A `uuid4()` collision is not modelled. `create` refuses an id that is
  already taken; `create_user` requires the fresh id to be unused.
- Pydantic validation is not modelled: `EmailStr`, 422 responses, and the
  `List[AnyHttpUrl]` check after the CORS validator. So are the framework's
  routing and response serialisation.
- Settings.AssembleCorsOrigins: its input type `CorsInput` represents a list
  as `Items(seq<string>)`. The CORS validator passes any list through
  unchanged, but a list holding non-strings cannot be given to the model.
- `OAuth2PasswordBearer` header extraction is not modelled: a missing
  `Authorization` header gives a 401 "Not authenticated".
- These are configuration or I/O and are not modelled: `verify_database`,
  migrations, alembic, `update_env`, the `DATABASE_URL` builder and the
  settings singletons. `SECRET_KEY` is a parameter.
- Python `str.strip()` is modelled for Unicode whitespace by code point.
  Strings are `seq<char>`, whose characters are Unicode scalar values: a
  Python `str` holding a lone surrogate cannot be represented.
- Security.HashLawful is an ideal hash, under which no other password
  verifies. bcrypt reads only the first 72 bytes of a password, so two
  passwords that agree on those bytes verify against each other's hashes.
  The members below inherit this.
- Security.VerifyOtherPassword: does not model bcrypt's 72-byte limit (see
  `HashLawful`).
- Security.VerifyPassword: its second clause does not model bcrypt's 72-byte
  limit.
- Security.GetPasswordHash: its second clause does not model bcrypt's 72-byte
  limit.
- Auth.LoginWithOtherPassword: does not model bcrypt's 72-byte limit; a
  password agreeing with the stored one on its first 72 bytes logs in.
- UserEndpoints.RegisteredPasswordVerifies: the "no other" half does not model
  bcrypt's 72-byte limit.
- Auth.Login, UserEndpoints.CreateUser and Crud.Created model hashing and
  verification as total functions. passlib's bcrypt raises `ValueError` for a
  password containing a NUL byte, for one longer than 4096 bytes, and when
  verifying against a stored hash it cannot identify (which a caller can plant
  through a `hashed_password` key given to `create` or `update`). Each is an
  unhandled 500 that the model does not have: `login` gives 401 or a token,
  `create_user` and `create` succeed. Crud.Updated likewise.
- UserEndpoints.UpdateUserMe: hashes a new password with the total
  `GetPasswordHash`. passlib's bcrypt raises `ValueError` for a new password
  containing a NUL byte or longer than 4096 bytes, before anything is
  assigned; `update_user_me` then answers 500 and changes nothing, where the
  model saves the profile.
- Crud.Updated does not model that `update` with a dict `obj_in` mutates the
  caller's dict: it pops `password` and writes `hashed_password` into it, and
  the pop happens even when `get_password_hash` then raises `TypeError`. The
  model computes a new change set and never shows the caller's dict.
- The `Token` schema's `TokenPayload` record has no behaviour and is not
  modelled.
