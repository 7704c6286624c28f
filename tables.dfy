/** The SQLite store of vaultlock/database/db_manager.py as in-memory tables.

    SQLite is dynamically typed, so a row is a map from column name to a
    Value, and each table maps the integer primary key to the rest of its
    row. The schema is a descriptor: each present table maps its column
    names to their position in the primary key (0 when not part of it), as
    `PRAGMA table_info` reports them. */
module Tables {
  import opened Common
  import opened Crypto

  datatype Value =
    | Null
    | Int(i: int)
    | Text(s: string)
    | Bytes(b: seq<byte>)
    | Cipher(token: Token)
    | Hashed(hash: PasswordHash)

  /** Python truthiness of a column value. */
  predicate Truthy(v: Value) {
    match v
    case Null => false
    case Int(i) => i != 0
    case Text(s) => s != ""
    case Bytes(b) => b != []
    case Cipher(t) => !IsEmptyToken(t)
    case Hashed(_) => true
  }

  type Row = map<string, Value>

  /** Column `c` of a row; a column the row does not hold reads as NULL. */
  function Col(r: Row, c: string): Value {
    if c in r then r[c] else Null
  }

  /** The column value a user id is stored as: 0 stands for Python's None. */
  function IdValue(id: nat): Value {
    if id == 0 then Null else Int(id)
  }

  /** Settings are keyed by (user_id, key); legacy rows have no user. */
  datatype SettingKey = SettingKey(user: Option<nat>, key: string)

  /** A settings value as text. The base64 rendering of a Fernet token is
      kept symbolic; every other value is plain text. */
  datatype SettingValue = Str(s: string) | B64Token(token: Token)

  /** Python truthiness of a settings string. */
  predicate SettingTruthy(v: SettingValue) {
    match v
    case Str(s) => s != ""
    case B64Token(t) => !IsEmptyToken(t)
  }

  /** The tables the database file can hold. */
  datatype Table = SchemaInfoTable | MasterVaultTable | UsersTable | FoldersTable | CredentialsTable | SettingsTable

  type Schema = map<Table, map<string, nat>>

  /** `parentFk` says whether folders.parent_id carries the foreign key
      (REFERENCES folders, ON DELETE CASCADE) that CREATE TABLE gives it; a
      parent_id column added later by ALTER TABLE has none. */
  datatype Store = Store(
    schema: Schema,
    parentFk: bool,
    schemaInfo: set<int>,
    masterVault: seq<Row>,
    users: map<nat, Row>,
    folders: map<nat, Row>,
    credentials: map<nat, Row>,
    settings: map<SettingKey, SettingValue>,
    nextUserId: nat,
    nextFolderId: nat,
    nextCredentialId: nat)

  // ---- the column sets that CREATE TABLE gives each table ----

  const UsersColumns: map<string, nat> := map[
    "id" := 1, "full_name" := 0, "email" := 0, "master_password_hash" := 0,
    "vault_salt" := 0, "is_active" := 0, "created_at" := 0]

  const FoldersColumns: map<string, nat> := map[
    "id" := 1, "name" := 0, "color" := 0, "parent_id" := 0, "user_id" := 0,
    "icon" := 0, "created_at" := 0, "updated_at" := 0]

  const SettingsColumns: map<string, nat> := map["user_id" := 1, "key" := 2, "value" := 0]

  const CredentialsColumns: map<string, nat> := map[
    "id" := 1, "service_name" := 0, "username" := 0, "email" := 0, "password_blob" := 0,
    "website" := 0, "notes_blob" := 0, "folder_id" := 0, "user_id" := 0,
    "is_favourite" := 0, "is_deleted" := 0, "created_at" := 0, "updated_at" := 0]

  const SchemaInfoColumns: map<string, nat> := map["version" := 1]

  // ---- referential links ----

  /** The row's `column` holds the id of a row in `s`. */
  predicate RefersInto(r: Row, column: string, s: set<nat>) {
    Col(r, column).Int? && Col(r, column).i >= 0 && Col(r, column).i as nat in s
  }

  /** A reference value SQLite's foreign-key check accepts. */
  predicate RefOk(v: Value, keys: set<nat>) {
    v.Null? || (v.Int? && v.i >= 0 && v.i as nat in keys)
  }

  /** Folders whose parent is in `s`. */
  function ChildFolders(folders: map<nat, Row>, s: set<nat>): (c: set<nat>)
    ensures c <= folders.Keys
  {
    set f | f in folders && RefersInto(folders[f], "parent_id", s)
  }

  predicate ClosedUnderChildren(folders: map<nat, Row>, t: set<nat>) {
    forall f :: f in folders && RefersInto(folders[f], "parent_id", t) ==> f in t
  }

  lemma ProperSubsetSmaller(a: set<nat>, b: set<nat>)
    requires a < b
    ensures |a| < |b|
  {
    var x :| x in b && x !in a;
    assert b == a + (b - a);
    assert x in b - a;
  }

  /** The folders an `ON DELETE CASCADE` on `parent_id` removes together
      with `roots`: the least set holding the roots and every folder whose
      parent it holds. */
  function Cascade(folders: map<nat, Row>, roots: set<nat>): (r: set<nat>)
    requires roots <= folders.Keys
    ensures roots <= r <= folders.Keys
    ensures ClosedUnderChildren(folders, r)
    decreases |folders.Keys - roots|
  {
    var next := roots + ChildFolders(folders, roots);
    if next == roots then roots
    else
      ProperSubsetSmaller(folders.Keys - next, folders.Keys - roots);
      Cascade(folders, next)
  }

  /** The cascade removes nothing that is not a descendant of a root: it is
      contained in every child-closed set that holds the roots. */
  lemma {:induction false} CascadeIsLeast(folders: map<nat, Row>, roots: set<nat>, t: set<nat>)
    requires roots <= folders.Keys && roots <= t && ClosedUnderChildren(folders, t)
    ensures Cascade(folders, roots) <= t
    decreases |folders.Keys - roots|
  {
    var next := roots + ChildFolders(folders, roots);
    if next != roots {
      ProperSubsetSmaller(folders.Keys - next, folders.Keys - roots);
      CascadeIsLeast(folders, next, t);
    }
  }

  // ---- what the controller sees ----

  /** One entry of get_all_credentials: the row with the folder name joined
      in and the secret columns decrypted. */
  datatype CredentialView = CredentialView(
    id: nat,
    serviceName: Option<string>,
    username: Option<string>,
    folderId: Value,
    userId: Value,
    folder: string,
    favourite: bool,
    isDeleted: bool,
    password: string,
    notes: string)

  /** One entry of get_all_folders, with the count of live credentials in it. */
  datatype FolderView = FolderView(
    id: nat,
    name: string,
    color: Value,
    parentId: Value,
    icon: Value,
    itemCount: nat)

  function AsText(v: Value): Option<string> {
    if v.Text? then Some(v.s) else None
  }
}
