/** The DatabaseManager object of vaultlock/database/db_manager.py. Its one
    piece of state is the database file, held here as the `store` field;
    each method runs the statements of the source against it and leaves the
    store the corresponding function of module Queries or Projection
    describes. */
module DbManager {
  import opened Common
  import opened Crypto
  import opened Tables
  import opened Migration
  import opened Queries
  import opened Projection

  class DatabaseManager {
    /** The contents of the SQLite file. */
    var store: Store

    /** The file has been through _init_db and its ids respect the
        AUTOINCREMENT counters. */
    ghost predicate Valid()
      reads this
    {
      WellFormed(store) && MigratedSchema(store)
    }

    /** A manager over a file _init_db has already migrated. */
    constructor (migrated: Store)
      requires WellFormed(migrated) && MigratedSchema(migrated)
      ensures store == migrated && Valid()
    {
      store := migrated;
    }

    /** get_all_credentials: one pass over the user's rows in rowid order. */
    method GetAllCredentials(u: nat, active: Option<Key>) returns (result: seq<CredentialView>)
      ensures result == Credentials(store, u, active, store.nextCredentialId)
    {
      result := [];
      for i := 0 to store.nextCredentialId
        invariant result == Credentials(store, u, active, i)
      {
        if i in store.credentials && OwnedBy(store.credentials[i], u) {
          result := result + [ViewOf(store, i, active)];
        }
      }
    }

    /** get_all_folders, each with its count of live credentials. */
    method GetAllFolders(u: nat) returns (result: seq<FolderView>)
      ensures result == Folders(store, u, store.nextFolderId)
    {
      result := [];
      for i := 0 to store.nextFolderId
        invariant result == Folders(store, u, i)
      {
        if i in store.folders && OwnedBy(store.folders[i], u) {
          result := result + [FolderViewOf(store, i)];
        }
      }
    }

    method AddCredential(data: NewCredential, u: nat, active: Option<Key>, iv1: nat, iv2: nat, now: Value)
      returns (outcome: Outcome<Option<nat>>)
      requires Valid()
      modifies this
      ensures Valid()
      ensures (outcome, store) == Queries.AddCredential(old(store), data, u, active, iv1, iv2, now)
    {
      var r := Queries.AddCredential(store, data, u, active, iv1, iv2, now);
      outcome, store := r.0, r.1;
    }

    /** update_credential: the SET list is built from the whitelist in its order. */
    method UpdateCredential(id: nat, data: map<string, Value>, now: Value) returns (status: Status)
      requires Valid()
      modifies this
      ensures Valid()
      ensures (status, store) == Queries.UpdateCredential(old(store), id, data, now)
    {
      var updates := CredentialUpdates(data);
      if updates == map[] || id !in store.credentials {
        return Done;
      }
      var row := (store.credentials[id] + updates)["updated_at" := now];
      if Col(row, "service_name") == Null {
        return IntegrityError;
      }
      if "folder_id" in updates && !RefOk(updates["folder_id"], store.folders.Keys) {
        return IntegrityError;
      }
      store := store.(credentials := store.credentials[id := row]);
      status := Done;
    }

    method DeleteCredential(id: nat)
      requires Valid()
      modifies this
      ensures Valid() && store == SoftDelete(old(store), id)
    {
      store := SoftDelete(store, id);
    }

    method RestoreCredential(id: nat)
      requires Valid()
      modifies this
      ensures Valid() && store == Restore(old(store), id)
    {
      store := Restore(store, id);
    }

    method PermanentlyDeleteCredential(id: nat)
      requires Valid()
      modifies this
      ensures Valid() && store == PermanentlyDelete(old(store), id)
    {
      store := PermanentlyDelete(store, id);
    }

    method PurgeDeletedCredentials(u: nat)
      requires Valid()
      modifies this
      ensures Valid() && store == Purge(old(store), u)
    {
      store := Purge(store, u);
    }

    method AddFolder(name: Value, u: nat, color: Value, parentId: Value, icon: Value, now: Value)
      returns (id: Option<nat>)
      requires Valid()
      modifies this
      ensures Valid()
      ensures (id, store) == Queries.AddFolder(old(store), name, u, color, parentId, icon, now)
    {
      var r := Queries.AddFolder(store, name, u, color, parentId, icon, now);
      id, store := r.0, r.1;
    }

    /** The loop of update_credential collecting the input's allowed keys,
        in the whitelist's order. */
    static method CredentialUpdates(data: map<string, Value>) returns (updates: map<string, Value>)
      ensures updates == Whitelisted(data, CredentialColumnSet)
    {
      updates := map[];
      for i := 0 to |CredentialColumns|
        invariant updates == map c | c in data && c in CredentialColumns[..i] :: data[c]
      {
        var key := CredentialColumns[i];
        if key in data {
          updates := updates[key := data[key]];
        }
        assert CredentialColumns[..i + 1] == CredentialColumns[..i] + [key];
      }
      assert CredentialColumns[..|CredentialColumns|] == CredentialColumns;
    }

    /** update_folder: the SET list is built from the input's allowed keys. */
    method UpdateFolder(id: nat, data: map<string, Value>, now: Value) returns (status: Status)
      requires Valid()
      modifies this
      ensures Valid()
      ensures (status, store) == Queries.UpdateFolder(old(store), id, data, now)
    {
      if data == map[] {
        return Done;
      }
      var updates: map<string, Value> := map[];
      var keys := data.Keys;
      while keys != {}
        invariant keys <= data.Keys
        invariant updates == map c | c in data && c !in keys && c in FolderColumns :: data[c]
        decreases |keys|
      {
        var key :| key in keys;
        if key in FolderColumns {
          updates := updates[key := data[key]];
        }
        keys := keys - {key};
      }
      assert updates == Whitelisted(data, FolderColumns);
      if updates == map[] || id !in store.folders {
        return Done;
      }
      var row := (store.folders[id] + updates)["updated_at" := now];
      if Col(row, "name") == Null {
        return IntegrityError;
      }
      if "parent_id" in updates && store.parentFk && !RefOk(updates["parent_id"], store.folders.Keys) {
        return IntegrityError;
      }
      store := store.(folders := store.folders[id := row]);
      status := Done;
    }

    method DeleteFolder(id: nat)
      requires Valid()
      modifies this
      ensures Valid() && store == Queries.DeleteFolder(old(store), id)
    {
      store := Queries.DeleteFolder(store, id);
    }

    /** register_vault: insert the user, then each default setting in order. */
    method RegisterVault(fullName: Value, email: Value, password: string, salt: seq<byte>, nonce: nat, now: Value)
      returns (outcome: Outcome<nat>)
      requires Valid()
      modifies this
      ensures Valid()
      ensures (outcome, store) == Queries.RegisterVault(old(store), fullName, email, password, salt, nonce, now)
    {
      if EmailTaken(store.users, email) {
        return Raised;
      }
      var id := store.nextUserId;
      var row := NewUserRow(fullName, email, password, salt, nonce, now);
      var settings := SeedDefaults(store.settings, id);
      RegisterKeepsShape(store, fullName, email, password, salt, nonce, now);
      store := store.(users := store.users[id := row], settings := settings, nextUserId := id + 1);
      outcome := Returned(id);
    }

    /** The loop of register_vault inserting each default setting for the
        new user, in order. */
    static method SeedDefaults(settings: map<SettingKey, SettingValue>, id: nat)
      returns (seeded: map<SettingKey, SettingValue>)
      ensures seeded == Seeded(settings, id, DefaultSettings)
    {
      seeded := settings;
      for i := 0 to |DefaultSettings|
        invariant seeded == Seeded(settings, id, DefaultSettings[..i])
      {
        var (key, value) := DefaultSettings[i];
        assert DefaultSettings[..i + 1][..i] == DefaultSettings[..i];
        seeded := seeded[SettingKey(Some(id), key) := Str(value)];
      }
      assert DefaultSettings[..|DefaultSettings|] == DefaultSettings;
    }

    /** change_master_password: the user update, then one update per
        credential; when statement `failAt` raises, nothing is written. */
    method ChangeMasterPassword(u: nat, newPassword: string, newSalt: seq<byte>, nonce: nat,
                                items: seq<(nat, Token, Token)>, now: Value, failAt: Option<nat>)
      returns (ok: bool)
      requires Valid()
      modifies this
      ensures Valid()
      ensures (ok, store) == Queries.ChangeMasterPassword(old(store), u, newPassword, newSalt, nonce, items, now, failAt)
    {
      if failAt == Some(0) {
        return false;
      }
      ghost var expected := Rotated(store, u, newPassword, newSalt, nonce, items, now);
      var users := store.users;
      if u in users {
        users := users[u := users[u]
                   ["master_password_hash" := Hashed(Argon2id(newPassword, nonce))]["vault_salt" := Bytes(newSalt)]];
      }
      var credentials;
      ok, credentials := Reencrypt(store.credentials, items, now, failAt);
      if !ok {
        return;
      }
      store := store.(users := users, credentials := credentials);
      assert store == expected;
    }

    /** The credential UPDATEs of change_master_password, one per item in
        order; false as soon as statement `failAt` raises. */
    static method Reencrypt(creds: map<nat, Row>, items: seq<(nat, Token, Token)>, now: Value, failAt: Option<nat>)
      returns (ok: bool, rows: map<nat, Row>)
      ensures ok <==> failAt.None? || failAt.value == 0 || failAt.value > |items|
      ensures ok ==> rows == Reencrypted(creds, items, now)
    {
      rows := creds;
      for i := 0 to |items|
        invariant rows == Reencrypted(creds, items[..i], now)
        invariant failAt.None? || failAt.value == 0 || failAt.value > i
      {
        if failAt == Some(i + 1) {
          return false, rows;
        }
        var (id, p, n) := items[i];
        assert items[..i + 1][..i] == items[..i];
        if id in rows {
          rows := rows[id := rows[id]["password_blob" := Cipher(p)]["notes_blob" := Cipher(n)]["updated_at" := now]];
        }
      }
      assert items[..|items|] == items;
      ok := true;
    }

    method SetSetting(u: nat, key: string, value: SettingValue) returns (status: Status)
      requires Valid()
      modifies this
      ensures Valid()
      ensures (status, store) == Queries.SetSetting(old(store), u, key, value)
    {
      var r := Queries.SetSetting(store, u, key, value);
      status, store := r.0, r.1;
    }

    method WipeUserData(u: nat)
      requires Valid()
      modifies this
      ensures Valid() && store == Queries.WipeUserData(old(store), u)
    {
      store := Queries.WipeUserData(store, u);
    }
  }

  /** Opening the database: the DatabaseManager constructor runs _init_db,
      and a migration that raises leaves no manager. */
  method Connect(file: Store, first: nat) returns (db: DatabaseManager?)
    requires WellFormed(file) && Fetchable(Prepare(file), first)
    ensures db == null <==> Migrate(file, first).None?
    ensures db != null ==> fresh(db) && db.Valid() && db.store == Migrate(file, first).value
  {
    var migrated := Migrate(file, first);
    if migrated.None? {
      return null;
    }
    MigrateEstablishes(file, first);
    db := new DatabaseManager(migrated.value);
  }
}
