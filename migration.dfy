/** The startup migration `DatabaseManager._init_db`
    (vaultlock/database/db_manager.py) as a sequence of transformations of
    the whole store. A migration that raises yields no store: Python's
    sqlite3 commits each CREATE and ALTER that runs before the first
    INSERT or UPDATE at once, so the rollback does not restore the old
    file either, and what it leaves is not modelled. */
module Migration {
  import opened Common
  import opened Tables

  /** A store whose parts agree with its schema: a settings table without a
      `user_id` column holds only rows without a user, and every id is
      positive and below the table's AUTOINCREMENT counter. */
  ghost predicate WellFormed(s: Store) {
    && (SettingsTable in s.schema && "user_id" !in s.schema[SettingsTable] ==>
          forall k :: k in s.settings ==> k.user.None?)
    && 0 < s.nextUserId && 0 < s.nextFolderId && 0 < s.nextCredentialId
    && (forall id :: id in s.users ==> 0 < id < s.nextUserId)
    && (forall id :: id in s.folders ==> 0 < id < s.nextFolderId)
    && (forall id :: id in s.credentials ==> 0 < id < s.nextCredentialId)
  }

  /** CREATE TABLE IF NOT EXISTS: a missing table appears with its full column set. */
  function CreateIfMissing(schema: Schema, table: Table, columns: map<string, nat>): (r: Schema)
    ensures table in r
    ensures table in schema ==> r == schema
    ensures table !in schema ==> r == schema[table := columns]
  {
    if table in schema then schema else schema[table := columns]
  }

  // ---- schema_info (lines 34-43) ----

  function SeedSchemaInfo(s: Store): (r: Store)
    ensures r.schemaInfo == if s.schemaInfo == {} then {1} else s.schemaInfo
    ensures SchemaInfoTable in r.schema
    ensures r == s.(schema := r.schema, schemaInfo := r.schemaInfo)
    ensures WellFormed(s) ==> WellFormed(r)
    ensures r.settings == s.settings && r.credentials == s.credentials
  {
    s.(schema := CreateIfMissing(s.schema, SchemaInfoTable, SchemaInfoColumns),
       schemaInfo := if s.schemaInfo == {} then {1} else s.schemaInfo)
  }

  // ---- users and the legacy master_vault table (lines 46-65) ----

  /** The first legacy row with `is_registered = 1`. */
  function FirstRegistered(rows: seq<Row>): (r: Option<Row>)
    ensures r.Some? ==> r.value in rows && Col(r.value, "is_registered") == Int(1)
    ensures r.None? ==> forall i :: 0 <= i < |rows| ==> Col(rows[i], "is_registered") != Int(1)
  {
    if rows == [] then None
    else if Col(rows[0], "is_registered") == Int(1) then Some(rows[0])
    else FirstRegistered(rows[1..])
  }

  /** INSERT OR IGNORE skips a row whose email is already taken (UNIQUE). */
  predicate EmailTaken(users: map<nat, Row>, email: Value) {
    email != Null && exists id | id in users :: Col(users[id], "email") == email
  }

  /** The users row INSERT OR IGNORE copies from a legacy master_vault
      row: its name, e-mail, hash and salt, and is_active's default 0. */
  function LegacyUserRow(legacy: Row): (row: Row)
    ensures forall c :: c in ["full_name", "email", "master_password_hash", "vault_salt"] ==>
              Col(row, c) == Col(legacy, c)
    ensures Col(row, "is_active") == Int(0) && "is_registered" !in row
  {
    map["full_name" := Col(legacy, "full_name"), "email" := Col(legacy, "email"),
        "master_password_hash" := Col(legacy, "master_password_hash"),
        "vault_salt" := Col(legacy, "vault_salt"), "is_active" := Int(0)]
  }

  /** Whether the migration copies a legacy user: master_vault exists, has
      a registered row, and that row's e-mail is still free. */
  predicate CopiesLegacyUser(s: Store) {
    && MasterVaultTable in s.schema
    && FirstRegistered(s.masterVault).Some?
    && !EmailTaken(s.users, Col(FirstRegistered(s.masterVault).value, "email"))
  }

  function MigrateLegacyUsers(s: Store): (r: Store)
    requires WellFormed(s)
    ensures WellFormed(r)
    ensures r.schema == CreateIfMissing(s.schema, UsersTable, UsersColumns) - {MasterVaultTable}
    ensures r.masterVault == if MasterVaultTable in s.schema then [] else s.masterVault
    ensures CopiesLegacyUser(s) ==>
              && r.users == s.users[s.nextUserId := LegacyUserRow(FirstRegistered(s.masterVault).value)]
              && r.nextUserId == s.nextUserId + 1
    ensures !CopiesLegacyUser(s) ==> r.users == s.users && r.nextUserId == s.nextUserId
    ensures r == s.(schema := r.schema, masterVault := r.masterVault, users := r.users, nextUserId := r.nextUserId)
    ensures UsersTable in r.schema && MasterVaultTable !in r.schema
    ensures s.users.Keys <= r.users.Keys && forall id :: id in s.users ==> r.users[id] == s.users[id]
    ensures SchemaInfoTable in s.schema ==> SchemaInfoTable in r.schema
  {
    // Without master_vault the set difference and the kept rows change nothing.
    var schema := CreateIfMissing(s.schema, UsersTable, UsersColumns) - {MasterVaultTable};
    var vault := if MasterVaultTable in s.schema then [] else s.masterVault;
    var r := if CopiesLegacyUser(s) then
      s.(schema := schema, masterVault := vault,
         users := s.users[s.nextUserId := LegacyUserRow(FirstRegistered(s.masterVault).value)],
         nextUserId := s.nextUserId + 1)
    else s.(schema := schema, masterVault := vault);
    UsersStepWellFormed(s, r);
    r
  }

  /** Changing only the users side of a well-formed store, with fresh ids
      below the counter and the settings table untouched, keeps it well formed. */
  lemma UsersStepWellFormed(s: Store, r: Store)
    requires WellFormed(s)
    requires r == s.(schema := r.schema, masterVault := r.masterVault, users := r.users, nextUserId := r.nextUserId)
    requires r.schema == CreateIfMissing(s.schema, UsersTable, UsersColumns) - {MasterVaultTable}
    requires s.nextUserId <= r.nextUserId
    requires forall id :: id in r.users ==> id in s.users || id == s.nextUserId < r.nextUserId
    ensures WellFormed(r)
  {
    assert SettingsTable in r.schema <==> SettingsTable in s.schema;
  }

  /** After the copy, a registered legacy user's e-mail names a user row:
      the copied one, or the one that made INSERT OR IGNORE skip it. */
  lemma LegacyEmailRegistered(s: Store)
    requires WellFormed(s) && MasterVaultTable in s.schema
    requires FirstRegistered(s.masterVault).Some? && Col(FirstRegistered(s.masterVault).value, "email") != Null
    ensures var r := MigrateLegacyUsers(s);
      exists id | id in r.users :: Col(r.users[id], "email") == Col(FirstRegistered(s.masterVault).value, "email")
  {
    var r := MigrateLegacyUsers(s);
    var email := Col(FirstRegistered(s.masterVault).value, "email");
    if CopiesLegacyUser(s) {
      assert Col(r.users[s.nextUserId], "email") == email;
    } else {
      var id :| id in s.users && Col(s.users[id], "email") == email;
      assert Col(r.users[id], "email") == email;
    }
  }

  /** The legacy step runs once: master_vault is gone afterwards, so a
      second run changes nothing. */
  lemma MigrateLegacyUsersIdempotent(s: Store)
    requires WellFormed(s)
    ensures MigrateLegacyUsers(MigrateLegacyUsers(s)) == MigrateLegacyUsers(s)
  {
    var r := MigrateLegacyUsers(s);
    assert UsersTable in r.schema && MasterVaultTable !in r.schema;
    assert CreateIfMissing(r.schema, UsersTable, UsersColumns) - {MasterVaultTable} == r.schema;
  }

  // ---- folders and credentials, with their added columns (lines 68-133) ----

  /** ALTER TABLE ... ADD COLUMN when `column` is missing: existing rows
      take the column's default. */
  function AddColumnIfMissing(columns: map<string, nat>, rows: map<nat, Row>, column: string, default: Value)
    : (r: (map<string, nat>, map<nat, Row>))
    ensures column in r.0
    ensures forall c :: c in columns ==> c in r.0 && r.0[c] == columns[c]
    ensures column in columns ==> r == (columns, rows)
    ensures column !in columns ==> r.0 == columns[column := 0]
    ensures r.1.Keys == rows.Keys
    ensures column !in columns ==> forall id :: id in rows ==> r.1[id] == rows[id][column := default]
  {
    if column in columns then (columns, rows)
    else (columns[column := 0], map id | id in rows :: rows[id][column := default])
  }

  function MigrateFolders(s: Store): (r: Store)
    ensures FoldersTable in r.schema
    ensures FoldersTable in s.schema ==> forall c :: c in s.schema[FoldersTable] ==>
              c in r.schema[FoldersTable] && r.schema[FoldersTable][c] == s.schema[FoldersTable][c]
    ensures "user_id" in r.schema[FoldersTable] && "parent_id" in r.schema[FoldersTable]
    ensures "icon" in r.schema[FoldersTable] && "updated_at" in r.schema[FoldersTable]
    ensures r.folders.Keys == s.folders.Keys
    ensures r == s.(schema := r.schema, parentFk := r.parentFk, folders := r.folders)
    ensures FoldersTable !in s.schema ==> r.parentFk
    ensures FoldersTable in s.schema && "parent_id" !in s.schema[FoldersTable] ==> !r.parentFk
    ensures FoldersTable in s.schema && "parent_id" in s.schema[FoldersTable] ==> r.parentFk == s.parentFk
    ensures forall t :: t in s.schema && t != FoldersTable ==> t in r.schema && r.schema[t] == s.schema[t]
    ensures r.schema.Keys == s.schema.Keys + {FoldersTable}
    ensures FoldersTable !in s.schema ==> r.schema == s.schema[FoldersTable := FoldersColumns]
    ensures MasterVaultTable !in s.schema ==> MasterVaultTable !in r.schema
    ensures UsersTable in s.schema ==> UsersTable in r.schema
    ensures SchemaInfoTable in s.schema ==> SchemaInfoTable in r.schema
    ensures r.schemaInfo == s.schemaInfo && r.settings == s.settings
    ensures r.users == s.users && r.nextUserId == s.nextUserId && r.credentials == s.credentials
    ensures WellFormed(s) ==> WellFormed(r)
  {
    var schema := CreateIfMissing(s.schema, FoldersTable, FoldersColumns);
    var altered := AlterFolders(schema[FoldersTable], s.folders);
    var parentFk := if FoldersTable !in s.schema then true else "parent_id" in s.schema[FoldersTable] && s.parentFk;
    s.(schema := schema[FoldersTable := altered.0], parentFk := parentFk, folders := altered.1)
  }

  /** The four ALTER TABLE statements on folders. */
  function AlterFolders(columns: map<string, nat>, rows: map<nat, Row>): (r: (map<string, nat>, map<nat, Row>))
    ensures forall c :: c in columns ==> c in r.0 && r.0[c] == columns[c]
    ensures "user_id" in r.0 && "parent_id" in r.0 && "icon" in r.0 && "updated_at" in r.0
    ensures r.1.Keys == rows.Keys
    ensures "user_id" in columns && "parent_id" in columns && "icon" in columns && "updated_at" in columns ==>
              r == (columns, rows)
  {
    var (c1, f1) := AddColumnIfMissing(columns, rows, "user_id", Null);
    var (c2, f2) := AddColumnIfMissing(c1, f1, "parent_id", Null);
    var (c3, f3) := AddColumnIfMissing(c2, f2, "icon", Text("folder.svg"));
    AddColumnIfMissing(c3, f3, "updated_at", Null)
  }

  /** The two ALTER TABLE statements on credentials. */
  function AlterCredentials(columns: map<string, nat>, rows: map<nat, Row>): (r: (map<string, nat>, map<nat, Row>))
    ensures forall c :: c in columns ==> c in r.0 && r.0[c] == columns[c]
    ensures "is_deleted" in r.0 && "user_id" in r.0
    ensures r.1.Keys == rows.Keys
    ensures forall id :: id in rows && Col(rows[id], "user_id") == Null ==> Col(r.1[id], "user_id") == Null
  {
    var (c1, r1) := AddColumnIfMissing(columns, rows, "is_deleted", Int(0));
    AddColumnIfMissing(c1, r1, "user_id", Null)
  }

  function MigrateCredentials(s: Store): (r: Store)
    ensures CredentialsTable in r.schema && SettingsTable in r.schema
    ensures CredentialsTable in s.schema ==> forall c :: c in s.schema[CredentialsTable] ==>
              c in r.schema[CredentialsTable] && r.schema[CredentialsTable][c] == s.schema[CredentialsTable][c]
    ensures "is_deleted" in r.schema[CredentialsTable] && "user_id" in r.schema[CredentialsTable]
    ensures r.credentials.Keys == s.credentials.Keys
    ensures r == s.(schema := r.schema, credentials := r.credentials)
    ensures forall t :: t in s.schema && t != CredentialsTable ==> t in r.schema && r.schema[t] == s.schema[t]
    ensures r.schema.Keys == s.schema.Keys + {SettingsTable, CredentialsTable}
    ensures SettingsTable !in s.schema ==> r.schema[SettingsTable] == SettingsColumns
    ensures MasterVaultTable !in s.schema ==> MasterVaultTable !in r.schema
    ensures UsersTable in s.schema ==> UsersTable in r.schema
    ensures SchemaInfoTable in s.schema ==> SchemaInfoTable in r.schema
    ensures FoldersTable in s.schema ==> FoldersTable in r.schema && r.schema[FoldersTable] == s.schema[FoldersTable]
    ensures r.schemaInfo == s.schemaInfo && r.settings == s.settings
    ensures r.users == s.users && r.nextUserId == s.nextUserId
    ensures forall id :: id in s.credentials && Col(s.credentials[id], "user_id") == Null ==>
              Col(r.credentials[id], "user_id") == Null
    ensures WellFormed(s) ==> WellFormed(r)
  {
    var schema := CreateSettingsAndCredentials(s.schema);
    var altered := AlterCredentials(schema[CredentialsTable], s.credentials);
    s.(schema := schema[CredentialsTable := altered.0], credentials := altered.1)
  }

  /** The two CREATE TABLE IF NOT EXISTS of lines 96-125. */
  function CreateSettingsAndCredentials(schema: Schema): (r: Schema)
    ensures r.Keys == schema.Keys + {SettingsTable, CredentialsTable}
    ensures forall t :: t in schema ==> r[t] == schema[t]
    ensures SettingsTable !in schema ==> r[SettingsTable] == SettingsColumns
    ensures CredentialsTable !in schema ==> r[CredentialsTable] == CredentialsColumns
  {
    CreateIfMissing(CreateIfMissing(schema, SettingsTable, SettingsColumns), CredentialsTable, CredentialsColumns)
  }

  // ---- settings keyed by (user_id, key) (lines 136-157) ----

  /** The legacy shapes: no `user_id` column, or `key` as the first primary-key column. */
  predicate NeedsSettingsRebuild(columns: map<string, nat>) {
    "user_id" !in columns || ("key" in columns && columns["key"] == 1)
  }

  /** Rename, recreate with the composite key, copy back, drop: the rows
      survive unchanged (rows of a table without `user_id` have no user). */
  function RebuildSettings(s: Store): (r: Store)
    requires SettingsTable in s.schema
    ensures SettingsTable in r.schema && !NeedsSettingsRebuild(r.schema[SettingsTable])
    ensures NeedsSettingsRebuild(s.schema[SettingsTable]) ==> r.schema == s.schema[SettingsTable := SettingsColumns]
    ensures !NeedsSettingsRebuild(s.schema[SettingsTable]) ==> r == s
    ensures r == s.(schema := r.schema)
    ensures r.schema.Keys == s.schema.Keys
    ensures forall t :: t in s.schema && t != SettingsTable ==> t in r.schema && r.schema[t] == s.schema[t]
    ensures MasterVaultTable !in s.schema ==> MasterVaultTable !in r.schema
    ensures FoldersTable in s.schema ==> r.schema[FoldersTable] == s.schema[FoldersTable]
    ensures CredentialsTable in s.schema ==> r.schema[CredentialsTable] == s.schema[CredentialsTable]
    ensures r.schemaInfo == s.schemaInfo && r.settings == s.settings
    ensures r.users == s.users && r.nextUserId == s.nextUserId && r.credentials == s.credentials
    ensures WellFormed(s) ==> WellFormed(r)
  {
    if NeedsSettingsRebuild(s.schema[SettingsTable]) then s.(schema := s.schema[SettingsTable := SettingsColumns])
    else s
  }

  // ---- orphaned rows go to the first user (lines 160-166) ----

  /** Setting a NULL user_id to `u` would collide with a row `u` already has. */
  predicate SettingsConflict(settings: map<SettingKey, SettingValue>, u: nat) {
    exists k | k in settings :: k.user.None? && SettingKey(Some(u), k.key) in settings
  }

  function AdoptRows(rows: map<nat, Row>, u: nat): (r: map<nat, Row>)
    ensures r.Keys == rows.Keys
    ensures forall id :: id in rows ==>
              r[id] == if Col(rows[id], "user_id") == Null then rows[id]["user_id" := Int(u)] else rows[id]
  {
    map id | id in rows :: if Col(rows[id], "user_id") == Null then rows[id]["user_id" := Int(u)] else rows[id]
  }

  function AdoptSettings(settings: map<SettingKey, SettingValue>, u: nat): (r: map<SettingKey, SettingValue>)
    requires !SettingsConflict(settings, u)
    ensures forall k :: k in r ==> k.user.Some?
    ensures forall k :: k in settings && k.user.Some? ==> k in r && r[k] == settings[k]
    ensures forall k :: k in settings && k.user.None? ==> SettingKey(Some(u), k.key) in r && r[SettingKey(Some(u), k.key)] == settings[k]
    ensures (forall k :: k in settings ==> k.user.Some?) ==> r == settings
  {
    var kept := map k | k in settings && k.user.Some? :: settings[k];
    var moved := map k | k in settings && k.user.None? :: SettingKey(Some(u), k.key) := settings[k];
    if forall k :: k in settings ==> k.user.Some? then
      assert kept == settings;
      assert moved == map[];
      kept + moved
    else kept + moved
  }

  /** `first` can be the row `SELECT id FROM users LIMIT 1` fetches: any
      user, since without ORDER BY SQLite promises no order (it may scan
      the index of the UNIQUE email column). */
  predicate Fetchable(s: Store, first: nat) {
    s.users != map[] ==> first in s.users
  }

  /** The three UPDATEs of lines 162-164 with the fetched user, or nothing
      without users; None when the settings UPDATE breaks the primary key. */
  function AssignOrphans(s: Store, first: nat): (r: Option<Store>)
    requires Fetchable(s, first)
    ensures s.users == map[] ==> r == Some(s)
    ensures r.Some? ==> r.value == s.(credentials := r.value.credentials, folders := r.value.folders, settings := r.value.settings)
    ensures r.None? <==> s.users != map[] && SettingsConflict(s.settings, first)
  {
    if s.users == map[] then Some(s)
    else if SettingsConflict(s.settings, first) then None
    else Some(s.(credentials := AdoptRows(s.credentials, first), folders := AdoptRows(s.folders, first),
                 settings := AdoptSettings(s.settings, first)))
  }

  /** The shape of the schema once every CREATE and ALTER has run. */
  ghost predicate MigratedSchema(s: Store) {
    && s.schemaInfo != {}
    && SchemaInfoTable in s.schema && UsersTable in s.schema && MasterVaultTable !in s.schema
    && FoldersTable in s.schema && CredentialsTable in s.schema && SettingsTable in s.schema
    && "user_id" in s.schema[FoldersTable] && "parent_id" in s.schema[FoldersTable]
    && "icon" in s.schema[FoldersTable] && "updated_at" in s.schema[FoldersTable]
    && "is_deleted" in s.schema[CredentialsTable] && "user_id" in s.schema[CredentialsTable]
    && !NeedsSettingsRebuild(s.schema[SettingsTable])
  }

  /** No credential, folder or setting is left without a user. */
  ghost predicate NoOrphans(s: Store) {
    && (forall id :: id in s.credentials ==> Col(s.credentials[id], "user_id") != Null)
    && (forall id :: id in s.folders ==> Col(s.folders[id], "user_id") != Null)
    && (forall k :: k in s.settings ==> k.user.Some?)
  }

  /** The shape _init_db leaves behind. */
  ghost predicate Migrated(s: Store) {
    MigratedSchema(s) && (s.users != map[] ==> NoOrphans(s))
  }

  /** schema_info, users and folders: the first half of _init_db. */
  function PrepareFolders(s: Store): (r: Store)
    requires WellFormed(s)
    ensures WellFormed(r) && r.settings == s.settings && r.credentials == s.credentials
    ensures r.schemaInfo != {} && SchemaInfoTable in r.schema && UsersTable in r.schema && MasterVaultTable !in r.schema
    ensures FoldersTable in r.schema && "user_id" in r.schema[FoldersTable] && "parent_id" in r.schema[FoldersTable]
    ensures "icon" in r.schema[FoldersTable] && "updated_at" in r.schema[FoldersTable]
  {
    var s1 := SeedSchemaInfo(s);
    var s2 := MigrateLegacyUsers(s1);
    MigrateFolders(s2)
  }

  /** Every statement of _init_db before the orphan assignment. */
  function Prepare(s: Store): (r: Store)
    requires WellFormed(s)
    ensures MigratedSchema(r) && WellFormed(r)
    ensures r.settings == s.settings
  {
    var s3 := PrepareFolders(s);
    var s4 := MigrateCredentials(s3);
    var s5 := RebuildSettings(s4);
    assert s5.schema[FoldersTable] == s3.schema[FoldersTable];
    assert s5.schema[CredentialsTable] == s4.schema[CredentialsTable];
    s5
  }

  /** _init_db: every step in the source's order, `first` standing for the
      user the orphan query fetches; None when a statement raises. */
  function Migrate(s: Store, first: nat): (r: Option<Store>)
    requires WellFormed(s) && Fetchable(Prepare(s), first)
  {
    AssignOrphans(Prepare(s), first)
  }

  /** With at least one user, the orphan assignment leaves no orphan,
      whichever user it picks. */
  lemma AssignOrphansAdopts(s: Store, first: nat)
    requires MigratedSchema(s) && WellFormed(s) && Fetchable(s, first)
    requires AssignOrphans(s, first).Some?
    ensures Migrated(AssignOrphans(s, first).value) && WellFormed(AssignOrphans(s, first).value)
  {
    var r := AssignOrphans(s, first).value;
    if s.users != map[] {
      assert r.credentials == AdoptRows(s.credentials, first);
      assert r.folders == AdoptRows(s.folders, first);
      assert r.settings == AdoptSettings(s.settings, first);
    }
  }

  /** A successful migration leaves the migrated shape and a well-formed store. */
  lemma MigrateEstablishes(s: Store, first: nat)
    requires WellFormed(s) && Fetchable(Prepare(s), first)
    requires Migrate(s, first).Some?
    ensures Migrated(Migrate(s, first).value) && WellFormed(Migrate(s, first).value)
  {
    AssignOrphansAdopts(Prepare(s), first);
  }

  /** The migration only fails when a setting without a user shares its key
      with a setting some user already has, so moving it would break the
      (user_id, key) primary key. */
  lemma MigrateFailsOnlyOnSettingsConflict(s: Store, first: nat)
    requires WellFormed(s) && Fetchable(Prepare(s), first)
    requires Migrate(s, first).None?
    ensures exists k1, k2 :: k1 in s.settings && k2 in s.settings && k1.user.None? && k2.user.Some? && k1.key == k2.key
  {
    var p := Prepare(s);
    assert p.settings == s.settings;
    assert SettingsConflict(s.settings, first);
    var k1 :| k1 in s.settings && k1.user.None? && SettingKey(Some(first), k1.key) in s.settings;
    var k2 := SettingKey(Some(first), k1.key);
    assert k2.user.Some? && k1.key == k2.key;
  }

  /** The steps before the orphan assignment keep every credential and
      leave a NULL user NULL. */
  lemma PrepareKeepsOrphan(s: Store, id: nat)
    requires WellFormed(s) && id in s.credentials && Col(s.credentials[id], "user_id") == Null
    ensures id in Prepare(s).credentials && Col(Prepare(s).credentials[id], "user_id") == Null
  {
    var s3 := PrepareFolders(s);
    var s4 := MigrateCredentials(s3);
    assert Prepare(s) == RebuildSettings(s4);
  }

  /** The orphan assignment hands a credential without a user to the
      fetched user. */
  lemma AssignOrphanToFirst(p: Store, first: nat, id: nat)
    requires WellFormed(p) && Fetchable(p, first) && AssignOrphans(p, first).Some? && p.users != map[]
    requires id in p.credentials && Col(p.credentials[id], "user_id") == Null
    ensures first in p.users && id in AssignOrphans(p, first).value.credentials
    ensures Col(AssignOrphans(p, first).value.credentials[id], "user_id") == Int(first)
  {
    var r := AssignOrphans(p, first).value;
    assert r.credentials == AdoptRows(p.credentials, first);
  }

  /** After _init_db a credential without a user belongs to the fetched
      user, who is a user of the migrated store. */
  lemma OrphanGoesToFirstUser(s: Store, first: nat, id: nat)
    requires WellFormed(s) && Fetchable(Prepare(s), first)
    requires Migrate(s, first).Some? && Migrate(s, first).value.users != map[]
    requires id in s.credentials && Col(s.credentials[id], "user_id") == Null
    ensures first in Migrate(s, first).value.users && id in Migrate(s, first).value.credentials
    ensures Col(Migrate(s, first).value.credentials[id], "user_id") == Int(first)
  {
    var p := Prepare(s);
    PrepareKeepsOrphan(s, id);
    AssignOrphanToFirst(p, first, id);
  }

  /** A folders table with its four added columns is left as it is. */
  lemma FoldersMigrated(s: Store)
    requires FoldersTable in s.schema
    requires "user_id" in s.schema[FoldersTable] && "parent_id" in s.schema[FoldersTable]
    requires "icon" in s.schema[FoldersTable] && "updated_at" in s.schema[FoldersTable]
    ensures MigrateFolders(s) == s
  {
    var r := MigrateFolders(s);
    assert r.schema == s.schema;
    assert r.folders == s.folders;
  }

  /** Settings and credentials tables, the latter with its two added
      columns, are left as they are. */
  lemma CredentialsMigrated(s: Store)
    requires SettingsTable in s.schema && CredentialsTable in s.schema
    requires "is_deleted" in s.schema[CredentialsTable] && "user_id" in s.schema[CredentialsTable]
    ensures MigrateCredentials(s) == s
  {
    var r := MigrateCredentials(s);
    assert r.schema == s.schema;
    assert r.credentials == s.credentials;
  }

  /** On the migrated schema every CREATE, ALTER and rebuild is a no-op. */
  lemma PrepareIdempotent(s: Store)
    requires WellFormed(s) && MigratedSchema(s)
    ensures Prepare(s) == s
  {
    var s1 := SeedSchemaInfo(s);
    assert s1 == s;
    var s2 := MigrateLegacyUsers(s1);
    assert s2 == s;
    FoldersMigrated(s);
    assert PrepareFolders(s) == s;
    CredentialsMigrated(s);
    assert RebuildSettings(s) == s;
  }

  /** With no orphan left, the orphan assignment changes nothing,
      whichever user it fetches. */
  lemma AssignOrphansIdempotent(s: Store, first: nat)
    requires WellFormed(s) && Migrated(s) && Fetchable(s, first)
    ensures AssignOrphans(s, first) == Some(s)
  {
    if s.users != map[] {
      assert NoOrphans(s);
      assert forall k :: k in s.settings ==> k.user.Some?;
      assert !SettingsConflict(s.settings, first);
      assert AdoptRows(s.credentials, first) == s.credentials;
      assert AdoptRows(s.folders, first) == s.folders;
    }
  }

  /** Re-running the migration on a migrated store changes nothing. */
  lemma MigrateIdempotent(s: Store, first: nat)
    requires WellFormed(s) && Migrated(s) && Fetchable(s, first)
    ensures Fetchable(Prepare(s), first) && Migrate(s, first) == Some(s)
  {
    PrepareIdempotent(s);
    AssignOrphansIdempotent(s, first);
  }

  /** Running _init_db twice is the same as running it once, whichever user
      either run fetches. */
  lemma MigrateTwiceIsOnce(s: Store, first: nat, again: nat)
    requires WellFormed(s) && Fetchable(Prepare(s), first) && Migrate(s, first).Some?
    requires Fetchable(Migrate(s, first).value, again)
    ensures var once := Migrate(s, first).value;
      WellFormed(once) && Fetchable(Prepare(once), again) && Migrate(once, again) == Some(once)
  {
    MigrateEstablishes(s, first);
    MigrateIdempotent(Migrate(s, first).value, again);
  }
}
