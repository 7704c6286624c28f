# VaultLock vault engine in Dafny

This project models the vault engine of VaultLock, a desktop password
manager written in Python with a Qt front end. It covers four parts.

- **The session controller.** `MainController` handles unlocking with a
  failed-attempt counter and a 30-second lockout countdown. It also covers
  locking and logout, the PIN wrap of the master password, master-password
  rotation and credential edits. It computes the visible listing (filter,
  search, stable sort, per-filter counts) and the folder tree.
- **The storage layer.** `DatabaseManager` is modelled over in-memory
  tables of users, folders, credentials and settings, plus a schema
  descriptor:
  - the startup migration `_init_db`, as a transformation of the whole store;
  - the CRUD statements, with SQLite's NOT NULL, foreign-key,
    `ON DELETE CASCADE` and `ON DELETE SET NULL` rules written out. The
    store records whether `folders.parent_id` carries its foreign key: it
    does when `CREATE TABLE` made the table, and not when the migration's
    `ALTER TABLE` added the column. Without it, parent ids are not
    checked and deleting a folder does not cascade;
  - per-user settings and the defaults a new user is seeded with;
  - the all-or-nothing rotation write.
- **The encryption-service wrapper.** It covers the empty short-circuits,
  the `"[Decryption Failed]"` / `"[Error]"` sentinel strings and the
  lifecycle of the single module-global active service. PBKDF2-HMAC-SHA256
  (section 5.2 of RFC 8018), Fernet and Argon2id are modelled symbolically:
  - a key records the (password, salt) it was derived from, with 600000
    iterations and 32 bytes;
  - a token records the key that sealed it;
  - a password hash records its password.
- **The logo manager.** This covers name normalisation, domain resolution
  and the magic-byte acceptance test for fetched content. It also covers
  the size test for cache files, and the memory cache, failed set,
  pending set and worker list of `LogoManager`.

The modules follow the source:
- `Crypto` models `encryption_service.py`.
- `Tables` holds the rows, values and schema descriptor.
- `Migration` models `_init_db`.
- `Queries` holds one function per SQL operation.
- `Projection` models `get_all_credentials` and `get_all_folders`.
- `DbManager` holds the `DatabaseManager` class, whose methods are proved
  against `Queries` and `Projection`.
- `Listing` models `update_models`, `getFolderTree`, `sidebarFolders` and
  `selectedItem`.
- `Session` holds the controller's rules as functions.
- `Controller` holds the `MainController` class, proved against `Session`
  and `Listing`.
- `Logos` models `logo_manager.py`.
- `Common` holds shared helpers.

Several quirks are modelled as written, each with a lemma that exposes it:
- Rotation re-initialises the service without a user id, so the session
  key comes from the fallback salt (`Session.RotatedSessionCannotRead`).
- Rotation checks only the password for a sentinel
  (`Session.NotesSentinelIsSealed`).
- `moveFolder` writes `parent_id` without a cycle check
  (`Queries.MoveCanCloseCycle`, `Listing.CycleNeverReachesRoot`).
- On a folders table migrated from an older shape, `parent_id` has no
  foreign key. Moves to a missing parent are then accepted, and deleting
  a folder leaves its subfolders
  (`Queries.MoveChecksParentOnlyWithFk`, `Queries.DeleteFolderWithoutParentFk`).
- Sentinels are in-band (`Crypto.SentinelIsIndistinguishable`,
  `Session.SentinelPasswordDefeatsPin`).
- The edit form writes a shown `"[Error]"` back as a password
  (`Session.ErrorPasswordIsSealed`).
- Folder names "All", "Favourites" and "Deleted" overwrite the fixed count
  entries (`Listing.CountsLookup`).
- The fetch accepts 500 bytes while the cache needs more than 500
  (`Logos.CacheBoundaryDiffers`).

The model follows the code in these details:
- The wrapped master password is stored under the settings key
  `pin_wrapped_mp`.
- The PIN is stored and compared as plain text.
- The lockout limit is the literal 5 and the lockout length the literal 30
  in unlockVault and _start_lockout (vaultlock/controllers/main_controller.py:263
  and :268), not the `failed_attempts_limit` setting.
- `wipe_user_data` deletes the user's credentials, folders and user row.
  The user's settings go only through the settings table's
  `ON DELETE CASCADE`.

## Model

| member | source | states |
|---|---|---|
| Crypto.Derive | vaultlock/services/encryption_service.py:15-24 | the Fernet key is PBKDF2-HMAC-SHA256 of (password, salt) with 600000 iterations and 32 bytes |
| Crypto.DeriveInjective | vaultlock/services/encryption_service.py:17-23 | two derivations give the same key exactly when password and salt are the same |
| Crypto.EncryptWith | vaultlock/services/encryption_service.py:27-30 | empty bytes exactly for empty text or a cleared service; otherwise a token sealed under the current key |
| Crypto.DecryptWith | vaultlock/services/encryption_service.py:32-43 | "" for an empty token or a cleared service; "[Decryption Failed]" for a token not sealed under the current key; never raises |
| Crypto.RoundTrip | vaultlock/services/encryption_service.py:27-43 | decrypt(encrypt(s)) == s for every s under one (password, salt) |
| Crypto.ForeignKeyFails | vaultlock/services/encryption_service.py:35-41 | a token sealed under another key decrypts to "[Decryption Failed]" |
| Crypto.ClearedServiceShortCircuits | vaultlock/services/encryption_service.py:27-34 | a cleared service encrypts every text to b"" and decrypts every token to "" |
| Crypto.SentinelIsIndistinguishable | vaultlock/services/encryption_service.py:39-41 | a stored plaintext "[Decryption Failed]" reads back exactly like a failed decryption |
| Crypto.SaltFor | vaultlock/services/encryption_service.py:62-65 | the stored salt when there is a user id and a non-empty stored salt, else the fixed 16-byte fallback |
| Crypto.ToHex | vaultlock/controllers/main_controller.py:556 | bytes.hex() gives two characters per byte |
| Crypto.FromHex | vaultlock/controllers/main_controller.py:534 | on text without whitespace, bytes.fromhex() gives half as many bytes as characters, or fails |
| Crypto.HexRoundTrip | vaultlock/controllers/main_controller.py:534-556 | bytes.fromhex(b.hex()) == b, so the stored PIN salt reads back |
| Crypto.EncryptionService.constructor | vaultlock/services/encryption_service.py:8-24 | the service keeps its salt and a Fernet key derived from (password, salt); `_key` stays None |
| Crypto.EncryptionService.Encrypt | vaultlock/services/encryption_service.py:27-30 | the result is EncryptWith under the service's current key |
| Crypto.EncryptionService.Decrypt | vaultlock/services/encryption_service.py:32-43 | the result is DecryptWith under the service's current key |
| Crypto.EncryptionService.Clear | vaultlock/services/encryption_service.py:45-49 | `_key`, `_fernet` and `_salt` are all None afterwards |
| Crypto.ServiceRegistry.constructor | vaultlock/services/encryption_service.py:52 | the module starts with no active service |
| Crypto.ServiceRegistry.ActiveKey | vaultlock/services/encryption_service.py:52 | no key exactly when no service is installed |
| Crypto.ServiceRegistry.InitializeEncryption | vaultlock/services/encryption_service.py:54-68 | the previous service is cleared; a fresh one becomes current, keyed by (password, SaltFor(user id, stored salt)) |
| Crypto.ServiceRegistry.ClearEncryption | vaultlock/services/encryption_service.py:70-74 | the active service is cleared and forgotten |
| Crypto.ServiceRegistry.GetEncryptionService | vaultlock/services/encryption_service.py:76-78 | returns the active service, which is None when none is installed |
| Tables.Cascade | vaultlock/database/db_manager.py:78 | ON DELETE CASCADE on parent_id removes a set holding the roots and closed under children |
| Tables.CascadeIsLeast | vaultlock/database/db_manager.py:78 | the cascade lies inside every child-closed set holding the roots, so it removes only descendants |
| Migration.CreateIfMissing | vaultlock/database/db_manager.py:34-38 | CREATE TABLE IF NOT EXISTS adds a missing table with its columns and leaves a present one alone |
| Migration.SeedSchemaInfo | vaultlock/database/db_manager.py:34-43 | schema_info gets version 1 only when it is empty; no other table changes |
| Migration.FirstRegistered | vaultlock/database/db_manager.py:61-62 | the first legacy row with is_registered = 1, or none when no row has it |
| Migration.LegacyUserRow | vaultlock/database/db_manager.py:62-64 | the copied row holds the legacy full_name, email, master_password_hash and vault_salt, with is_active 0 |
| Migration.MigrateLegacyUsers | vaultlock/database/db_manager.py:46-65 | the schema gains users and loses master_vault; the first registered legacy row is copied under the next id exactly when its e-mail is free, else users and counter stay; nothing else changes |
| Migration.LegacyEmailRegistered | vaultlock/database/db_manager.py:58-64 | afterwards a registered legacy user's non-NULL e-mail names a user row, copied or already there |
| Migration.MigrateLegacyUsersIdempotent | vaultlock/database/db_manager.py:58-65 | the copy happens once: a second run changes nothing |
| Migration.AddColumnIfMissing | vaultlock/database/db_manager.py:84-93 | only a missing column is added, with the default in every existing row; existing columns keep their position |
| Migration.AlterFolders | vaultlock/database/db_manager.py:84-93 | afterwards folders has user_id, parent_id, icon and updated_at; with all four present nothing changes |
| Migration.MigrateFolders | vaultlock/database/db_manager.py:67-93 | the folders table exists with its four added columns; parent_id carries its foreign key exactly when CREATE TABLE made the table or it already did; the folder rows and every other table are kept |
| Migration.CreateSettingsAndCredentials | vaultlock/database/db_manager.py:96-125 | settings and credentials exist afterwards; a table already present is untouched |
| Migration.AlterCredentials | vaultlock/database/db_manager.py:127-133 | afterwards credentials has is_deleted and user_id; a NULL user stays NULL |
| Migration.MigrateCredentials | vaultlock/database/db_manager.py:95-133 | settings and credentials exist, credentials with is_deleted and user_id; rows and other tables are kept |
| Migration.RebuildSettings | vaultlock/database/db_manager.py:135-157 | rebuilt only when user_id is missing or key is the first primary-key column; afterwards no rebuild is needed and the rows survive |
| Migration.AdoptRows | vaultlock/database/db_manager.py:164-165 | exactly the rows with a NULL user_id get the first user; the others are unchanged |
| Migration.AdoptSettings | vaultlock/database/db_manager.py:166 | settings without a user move to the first user; settings of users are kept |
| Migration.AssignOrphans | vaultlock/database/db_manager.py:159-166 | with no user nothing changes; otherwise only credentials, folders and settings change; it fails exactly when the fetched user already has a key that an ownerless setting also has |
| Migration.PrepareFolders | vaultlock/database/db_manager.py:33-93 | after schema_info, users and folders, the store is well formed with those tables in their migrated shape |
| Migration.Prepare | vaultlock/database/db_manager.py:33-157 | every CREATE, ALTER and rebuild leaves the migrated schema and a well-formed store; settings are kept |
| Migration.AssignOrphansAdopts | vaultlock/database/db_manager.py:159-166 | whichever user the query fetches, no credential, folder or setting is left without a user afterwards |
| Migration.MigrateEstablishes | vaultlock/database/db_manager.py:28-168 | a successful _init_db leaves the migrated schema, no orphans and a well-formed store |
| Migration.MigrateFailsOnlyOnSettingsConflict | vaultlock/database/db_manager.py:166 | _init_db fails only when a setting without a user shares its key with a user's setting |
| Migration.PrepareKeepsOrphan | vaultlock/database/db_manager.py:33-157 | the steps before the assignment keep every credential, and a NULL user stays NULL |
| Migration.FoldersMigrated | vaultlock/database/db_manager.py:67-93 | a folders table with all four added columns is left as it is, foreign-key flag included |
| Migration.CredentialsMigrated | vaultlock/database/db_manager.py:95-133 | settings and credentials tables already migrated are left as they are |
| Migration.AssignOrphanToFirst | vaultlock/database/db_manager.py:160-164 | a credential without a user goes to the fetched user, an existing user |
| Migration.OrphanGoesToFirstUser | vaultlock/database/db_manager.py:159-166 | after _init_db a credential that had no user belongs to the fetched user, who is a user of the migrated store |
| Migration.PrepareIdempotent | vaultlock/database/db_manager.py:33-157 | on the migrated schema every CREATE, ALTER and rebuild is a no-op |
| Migration.AssignOrphansIdempotent | vaultlock/database/db_manager.py:159-166 | with no orphans the assignment changes nothing, whichever user it fetches |
| Migration.MigrateIdempotent | vaultlock/database/db_manager.py:28-168 | re-running _init_db on a migrated store changes nothing |
| Migration.MigrateTwiceIsOnce | vaultlock/database/db_manager.py:28-168 | running _init_db twice gives the same store as running it once, whichever user each run fetches |
| Queries.SetDeleted | vaultlock/database/db_manager.py:293-315 | only the is_deleted column of the one row changes |
| Queries.RestoreUndoesSoftDelete | vaultlock/database/db_manager.py:293-315 | restoring a credential that was live gives back the store exactly |
| Queries.PermanentlyDelete | vaultlock/database/db_manager.py:299-303 | exactly that id is removed; every other row is unchanged |
| Queries.Purge | vaultlock/database/db_manager.py:305-309 | a row is removed exactly when it is deleted and belongs to the user; the rest are unchanged |
| Queries.PurgeIdempotent | vaultlock/database/db_manager.py:305-309 | purging twice is the same as purging once |
| Queries.SetDeletedKeepsConsistency | vaultlock/database/db_manager.py:293-315 | flipping the deleted flag keeps every schema constraint |
| Queries.DeletionsKeepConsistency | vaultlock/database/db_manager.py:293-315 | soft delete, restore, permanent delete and purge keep every schema constraint |
| Queries.Detach | vaultlock/database/db_manager.py:350 | exactly the credentials filed in a removed folder get folder_id NULL |
| Queries.Deleted | vaultlock/database/db_manager.py:78-89 | the folders a DELETE removes: the roots, and with the parent_id foreign key a child-closed set; without it, exactly the roots |
| Queries.DeletedIsLeast | vaultlock/database/db_manager.py:78-89 | a DELETE removes nothing outside a child-closed set holding the roots, so only descendants go |
| Queries.DeleteFolders | vaultlock/database/db_manager.py:351 | the DELETE removes the folders Queries.Deleted names, and SET NULL detaches their credentials |
| Queries.DeleteFolder | vaultlock/database/db_manager.py:346-352 | the folder goes, and its descendants too when parent_id carries its foreign key; credentials in any of them survive with folder_id NULL; nothing else changes |
| Queries.DeleteFolderKeepsOthers | vaultlock/database/db_manager.py:346-352 | a folder that is not a descendant of the deleted one survives |
| Queries.DeleteFolderWithoutParentFk | vaultlock/database/db_manager.py:346-352 | without the parent_id foreign key exactly the one folder is deleted, and its children stay |
| Queries.DeleteFolderKeepsConsistency | vaultlock/database/db_manager.py:346-352 | delete_folder keeps every schema constraint |
| Queries.SurvivingFoldersOk | vaultlock/database/db_manager.py:346-352 | under the parent_id foreign key no surviving folder has a removed parent |
| Queries.SurvivingCredentialsOk | vaultlock/database/db_manager.py:346-352 | no surviving credential refers to a removed folder |
| Queries.Whitelisted | vaultlock/database/db_manager.py:256-269 | the SET list holds exactly the input's allowed keys, with their values |
| Queries.UpdateCredential | vaultlock/database/db_manager.py:251-274 | only credentials change; with no allowed key, or on a constraint error, nothing changes |
| Queries.UpdateCredentialWritesOnlyWhitelisted | vaultlock/database/db_manager.py:251-274 | allowed keys given in the input are written into the one row; every other column and row is unchanged |
| Queries.UpdateCredentialKeepsConsistency | vaultlock/database/db_manager.py:251-274 | an update that does not set user_id keeps every schema constraint |
| Queries.UpdateFolder | vaultlock/database/db_manager.py:328-344 | only folders change; empty input, no allowed key or a constraint error change nothing |
| Queries.MoveChecksParentOnlyWithFk | vaultlock/database/db_manager.py:328-344 | a parent_id update fails exactly when the foreign key exists and the parent is missing; otherwise the value is written |
| Queries.UpdateFolderWritesOnlyWhitelisted | vaultlock/database/db_manager.py:328-344 | allowed keys given in the input are written into the one row; every other column and row is unchanged |
| Queries.MoveCanCloseCycle | vaultlock/controllers/main_controller.py:461-466 | moving a folder under its own child is accepted and leaves two folders that are each other's parent |
| Queries.FolderByName | vaultlock/database/db_manager.py:217-222 | the first of the user's folders with that name, or none when no such folder exists |
| Queries.FolderFor | vaultlock/database/db_manager.py:217-222 | the folder_id stored is NULL or one of the user's folders with that name |
| Queries.NewCredentialRow | vaultlock/database/db_manager.py:224-247 | the inserted row has the given name, folder and owner, is not deleted, and holds both secrets sealed under the active key |
| Queries.AddCredential | vaultlock/database/db_manager.py:214-249 | returns None exactly without an active service; raises exactly when service_name is NULL or the user row is missing, and then nothing changes; on insert the new id is the next rowid and the one row added is Queries.NewCredentialRow |
| Queries.NewFolderRow | vaultlock/database/db_manager.py:320-324 | the inserted row holds the given name, colour, parent, owner, icon and timestamps |
| Queries.AddFolder | vaultlock/database/db_manager.py:317-326 | returns None exactly when the name is NULL, the owner is missing, or the parent is missing under its foreign key; otherwise the next rowid and the one row added is Queries.NewFolderRow |
| Queries.AddFolderKeepsConsistency | vaultlock/database/db_manager.py:317-326 | add_folder keeps every schema constraint |
| Queries.AddCredentialKeepsConsistency | vaultlock/database/db_manager.py:214-249 | add_credential keeps every schema constraint |
| Queries.GetSetting | vaultlock/database/db_manager.py:424-430 | the stored value for a non-falsy user with that key; the default for a falsy user or a missing row |
| Queries.SetSetting | vaultlock/database/db_manager.py:432-437 | only settings change; a falsy user is a no-op; it raises exactly for a missing user row |
| Queries.SetThenGet | vaultlock/database/db_manager.py:424-437 | a value set for a user reads back, and no other (user, key) moves |
| Queries.Seeded | vaultlock/database/db_manager.py:390-391 | the inserts add only the user's listed keys and leave other users' settings alone |
| Queries.SeededValue | vaultlock/database/db_manager.py:390-391 | with distinct keys each seeded key holds its own value |
| Queries.RegisterVault | vaultlock/database/db_manager.py:367-393 | raises exactly when the e-mail is taken, changing nothing; otherwise returns the next user id, adds exactly the Queries.NewUserRow row, seeds exactly the defaults, and changes nothing else |
| Queries.NewUserRow | vaultlock/database/db_manager.py:368-374 | the user row holds the Argon2id hash of the password, the given salt and the e-mail |
| Queries.VerifyPassword | vaultlock/database/db_manager.py:395-406 | true exactly for an existing user whose stored hash is a hash of this password |
| Queries.GetVaultSalt | vaultlock/database/db_manager.py:408-413 | a salt exactly when the user exists and has stored bytes |
| Queries.RegisterThenVerify | vaultlock/database/db_manager.py:367-413 | a new user verifies with their password and no other, reads back their own salt, and PBKDF2 accepts it |
| Queries.RegisterSeedsDefaults | vaultlock/database/db_manager.py:378-391 | a new user reads back every default setting |
| Queries.DefaultKeysDistinct | vaultlock/database/db_manager.py:378-389 | no default key is listed twice |
| Queries.RegisterKeepsShape | vaultlock/database/db_manager.py:367-393 | registering keeps the migrated schema and keeps ids below their counters |
| Queries.RegisterKeepsConsistency | vaultlock/database/db_manager.py:367-393 | register_vault keeps every schema constraint |
| Queries.Reencrypted | vaultlock/database/db_manager.py:284-286 | the credential UPDATEs keep the set of credential ids |
| Queries.Rotated | vaultlock/database/db_manager.py:282-286 | a committed rotation changes only users and credentials |
| Queries.ChangeMasterPassword | vaultlock/database/db_manager.py:276-291 | True and every statement applied, or False and the store unchanged when any statement raises |
| Queries.RotationReplacesPassword | vaultlock/database/db_manager.py:276-291 | after rotation only the new password verifies and the stored salt is the new one |
| Queries.ReencryptedHolds | vaultlock/database/db_manager.py:284-286 | with distinct ids, every listed credential holds its new blobs |
| Queries.ReencryptedKeepsOthers | vaultlock/database/db_manager.py:284-286 | a credential not listed keeps its row |
| Queries.DeleteUser | vaultlock/database/db_manager.py:444 | exactly the user row is gone; with a NULL id no row goes |
| Queries.DeleteNoFolders | vaultlock/database/db_manager.py:351 | a DELETE naming no folder changes nothing |
| Queries.DeleteUserOwningNothing | vaultlock/database/db_manager.py:444 | once the user owns no row, deleting them removes only the user row and their settings |
| Queries.NothingRefersToUser | vaultlock/database/db_manager.py:442-444 | with the user's rows gone, no row's user_id refers to them |
| Queries.WipeUserData | vaultlock/database/db_manager.py:439-445 | the user row goes; their credentials go and the others survive, losing only a folder that was removed; their folders go with Queries.Deleted and every other folder survives unchanged; their settings go when the user row existed; nothing else changes |
| Queries.WipeKeepsUnrelatedFolders | vaultlock/database/db_manager.py:439-445 | a folder outside every child-closed set holding the user's folders survives unchanged |
| Queries.WipeKeepsOtherUsersSettings | vaultlock/database/db_manager.py:439-445 | every other user's settings read the same after a wipe |
| Projection.JoinedName | vaultlock/database/db_manager.py:175-177 | the LEFT JOIN supplies a name only for a folder_id naming an existing folder |
| Projection.BlobText | vaultlock/database/db_manager.py:189-198 | "" for an empty blob, "[Locked]" without a service, otherwise the service's decrypt |
| Projection.ViewOf | vaultlock/database/db_manager.py:183-198 | the entry carries its own row id |
| Projection.CredentialsSound | vaultlock/database/db_manager.py:170-200 | every entry is the view of a row of that user, in increasing id order |
| Projection.CredentialsComplete | vaultlock/database/db_manager.py:170-200 | every row of that user is listed |
| Projection.ViewRules | vaultlock/database/db_manager.py:184-198 | "No Folder" without a joined folder, "" for an empty blob, "[Locked]" for a blob without a service |
| Projection.ViewRoundTrip | vaultlock/database/db_manager.py:189-198 | a blob written by the active service reads back as its text |
| Projection.FolderViewOf | vaultlock/database/db_manager.py:207-212 | the entry carries its own folder id |
| Projection.FoldersSound | vaultlock/database/db_manager.py:202-212 | every entry is a folder of that user, in increasing id order |
| Projection.FoldersComplete | vaultlock/database/db_manager.py:202-212 | every folder of that user is listed |
| Projection.SoftDeleteShows | vaultlock/database/db_manager.py:293-315 | after delete_credential the entry is the same but marked deleted; after restore it is live |
| Projection.DeleteFolderShowsNoFolder | vaultlock/database/db_manager.py:346-352 | after delete_folder a credential from a removed folder is still listed, under "No Folder" |
| DbManager.DatabaseManager.constructor | vaultlock/database/db_manager.py:11-13 | a manager holds a migrated, well-formed store |
| DbManager.DatabaseManager.GetAllCredentials | vaultlock/database/db_manager.py:170-200 | the loop returns Projection.Credentials of the store |
| DbManager.DatabaseManager.GetAllFolders | vaultlock/database/db_manager.py:202-212 | the loop returns Projection.Folders of the store |
| DbManager.DatabaseManager.AddCredential | vaultlock/database/db_manager.py:214-249 | result and new store are Queries.AddCredential's |
| DbManager.DatabaseManager.UpdateCredential | vaultlock/database/db_manager.py:251-274 | status and new store are Queries.UpdateCredential's |
| DbManager.DatabaseManager.CredentialUpdates | vaultlock/database/db_manager.py:256-269 | the loop over the mapping collects exactly the whitelisted keys of the input |
| DbManager.DatabaseManager.DeleteCredential | vaultlock/database/db_manager.py:293-297 | the new store is Queries.SoftDelete's |
| DbManager.DatabaseManager.RestoreCredential | vaultlock/database/db_manager.py:311-315 | the new store is Queries.Restore's |
| DbManager.DatabaseManager.PermanentlyDeleteCredential | vaultlock/database/db_manager.py:299-303 | the new store is Queries.PermanentlyDelete's |
| DbManager.DatabaseManager.PurgeDeletedCredentials | vaultlock/database/db_manager.py:305-309 | the new store is Queries.Purge's |
| DbManager.DatabaseManager.AddFolder | vaultlock/database/db_manager.py:317-326 | result and new store are Queries.AddFolder's |
| DbManager.DatabaseManager.UpdateFolder | vaultlock/database/db_manager.py:328-344 | the loop over the input builds the SET list; status and store are Queries.UpdateFolder's |
| DbManager.DatabaseManager.DeleteFolder | vaultlock/database/db_manager.py:346-352 | the new store is Queries.DeleteFolder's |
| DbManager.DatabaseManager.RegisterVault | vaultlock/database/db_manager.py:367-393 | result and new store are Queries.RegisterVault's; the store stays migrated |
| DbManager.DatabaseManager.SeedDefaults | vaultlock/database/db_manager.py:390-391 | the loop of INSERT OR REPLACE gives Queries.Seeded of the defaults |
| DbManager.DatabaseManager.ChangeMasterPassword | vaultlock/database/db_manager.py:276-291 | result and new store are Queries.ChangeMasterPassword's |
| DbManager.DatabaseManager.Reencrypt | vaultlock/database/db_manager.py:284-286 | the loop fails exactly when a statement raises, and otherwise gives Queries.Reencrypted |
| DbManager.DatabaseManager.SetSetting | vaultlock/database/db_manager.py:432-437 | status and new store are Queries.SetSetting's |
| DbManager.DatabaseManager.WipeUserData | vaultlock/database/db_manager.py:439-445 | the new store is Queries.WipeUserData's |
| DbManager.Connect | vaultlock/database/db_manager.py:11-13 | no manager exactly when _init_db fails; otherwise a fresh manager over the migrated store |
| Listing.FilteredMembers | vaultlock/controllers/main_controller.py:667-687 | an item is listed exactly when it is loaded and passes the flag, folder and search tests |
| Listing.FilteredAppend | vaultlock/controllers/main_controller.py:667-687 | filtering keeps the loaded order |
| Listing.EmptyQueryIgnoresText | vaultlock/controllers/main_controller.py:669-680 | with an empty query only the deleted flag, Favourites and the folder decide |
| Listing.Insert | vaultlock/controllers/main_controller.py:689-694 | inserting adds exactly one item to the multiset |
| Listing.Sort | vaultlock/controllers/main_controller.py:689-694 | the sort is a permutation of its input |
| Listing.InsertSorted | vaultlock/controllers/main_controller.py:689-694 | inserting into a sorted list keeps it sorted |
| Listing.SortSorted | vaultlock/controllers/main_controller.py:689-694 | the result is ordered by lowered service name, descending for "ZA" |
| Listing.InsertStable | vaultlock/controllers/main_controller.py:689-694 | inserting places the item ahead of the equal-key items that follow it |
| Listing.SortStable | vaultlock/controllers/main_controller.py:689-694 | items with an equal key keep their loaded order, in both directions |
| Listing.Count | vaultlock/controllers/main_controller.py:657-665 | a count is at most the number of loaded items |
| Listing.LivePlusDeleted | vaultlock/controllers/main_controller.py:657-661 | "All" plus "Deleted" is the number of loaded items |
| Listing.CountsLookup | vaultlock/controllers/main_controller.py:657-665 | a folder's name maps to its live count, replacing a fixed entry of that name; other entries are the fixed ones |
| Listing.Placement | vaultlock/controllers/main_controller.py:486-491 | a folder is attached only under a shown folder other than itself |
| Listing.RootsOccurrences | vaultlock/controllers/main_controller.py:483-495 | a folder is among the roots once when shown with no usable parent, else never |
| Listing.ChildrenOccurrences | vaultlock/controllers/main_controller.py:483-495 | a folder is among p's children once when shown and attached under p, else never |
| Listing.PlacedExactlyOnce | vaultlock/controllers/main_controller.py:480-496 | every shown folder is placed exactly once, at the root or under its parent; "No Folder" nowhere |
| Listing.CycleNeverReachesRoot | vaultlock/controllers/main_controller.py:480-496 | two folders that are each other's parent are both attached below the other, and the root list is empty |
| Listing.SidebarFolders | vaultlock/controllers/main_controller.py:152-153 | exactly the loaded folders not named "No Folder" |
| Listing.Decimal | vaultlock/controllers/main_controller.py:139 | str() of an id is a non-empty string of digits |
| Listing.SelectedItem | vaultlock/controllers/main_controller.py:137-141 | a loaded item whose id prints as the selection, or none exactly when no item does |
| Session.Attempt | vaultlock/controllers/main_controller.py:241-265 | an attempt succeeds exactly without lockout, with a user selected and a password that verifies |
| Session.Tick | vaultlock/controllers/main_controller.py:272-280 | a tick at 0 changes nothing; otherwise the countdown drops by one |
| Session.BlockedAttemptChangesNothing | vaultlock/controllers/main_controller.py:243-244 | during a lockout or with no user, an attempt returns False and leaves the counters alone |
| Session.GateInvariant | vaultlock/controllers/main_controller.py:241-280 | attempts and ticks keep the counters in their reachable shapes |
| Session.FailuresLockOut | vaultlock/controllers/main_controller.py:258-270 | four wrong passwords only count; the fifth starts a 30-second lockout; later ones are refused |
| Session.LockoutExpires | vaultlock/controllers/main_controller.py:272-280 | the lockout runs for exactly its remaining ticks and then resets the failure counter to 0 |
| Session.Toggled | vaultlock/controllers/main_controller.py:408-410 | toggleSort's order is "AZ" or "ZA" |
| Session.SettersPair | vaultlock/controllers/main_controller.py:207-230 | a known value pairs order and criteria; an unknown one leaves the other field alone |
| Session.ToggleFlips | vaultlock/controllers/main_controller.py:408-410 | toggling flips between "AZ" and "ZA", and twice is the identity |
| Session.PinCandidate | vaultlock/controllers/main_controller.py:522-542 | a candidate only for a non-empty PIN equal to the stored one, and never a sentinel |
| Session.PinSet | vaultlock/controllers/main_controller.py:545-558 | setPin changes only settings |
| Session.PinRemoved | vaultlock/controllers/main_controller.py:561-565 | removePin changes only settings |
| Session.PinRoundTrip | vaultlock/controllers/main_controller.py:522-558 | after setPin the same PIN unwraps the master password it sealed |
| Session.WrongPinRejected | vaultlock/controllers/main_controller.py:524-526 | a different PIN is rejected before any unwrap |
| Session.RemovedPinRejected | vaultlock/controllers/main_controller.py:561-565 | after removePin no PIN unlocks |
| Session.SentinelPasswordDefeatsPin | vaultlock/controllers/main_controller.py:537-539 | a master password equal to "[Decryption Failed]" cannot come back through the PIN |
| Session.RotationItems | vaultlock/controllers/main_controller.py:628-634 | one item per shown credential when the rotation goes on |
| Session.RotationRefused | vaultlock/controllers/main_controller.py:629-632 | the rotation gives up exactly when some shown password is a sentinel |
| Session.RotationItemsReadBack | vaultlock/controllers/main_controller.py:628-634 | every item names its credential and reads back, under the new key, as the shown password and notes |
| Session.NotesSentinelIsSealed | vaultlock/controllers/main_controller.py:631-634 | notes showing "[Decryption Failed]" are sealed as that text, and the note is lost |
| Session.RotatedSessionCannotRead | vaultlock/controllers/main_controller.py:636-637 | the post-rotation key (fallback salt) cannot read what was sealed under the new salt; the next unlock can |
| Session.FieldUpdates | vaultlock/controllers/main_controller.py:573-577 | exactly the renamed columns of the listed form keys present in the input |
| Session.FirstNamed | vaultlock/controllers/main_controller.py:578-585 | the id of the first folder with that name, NULL exactly when none has it |
| Session.SealValue | vaultlock/controllers/main_controller.py:587-594 | form text is sealed under the active key |
| Session.EditUpdatesAdmitted | vaultlock/controllers/main_controller.py:568-595 | the edit writes only whitelisted credential columns, never owner or deleted flag, and skips kept password/notes values |
| Session.ErrorPasswordIsSealed | vaultlock/controllers/main_controller.py:587-590 | a shown "[Error]" password is written back sealed as that text |
| Controller.ModelsListing | vaultlock/controllers/main_controller.py:654-698 | the shown list holds exactly the matching items with their multiplicity, sorted by name, stable for equal names |
| Controller.LockUnlockRestoresListing | vaultlock/controllers/main_controller.py:700-711 | locking and reloading with the same key over the same store restores the listing, counts and folders |
| Controller.RowIdOf | vaultlock/database/db_manager.py:271-273 | an integer id matches its own row; only integers and numeric text match a row |
| Controller.DecimalValue | vaultlock/controllers/main_controller.py:139 | a value exactly for a non-empty string of digits |
| Controller.DecimalRoundTrip | vaultlock/controllers/main_controller.py:139 | reading back what str() prints gives the id back |
| Controller.SelectById | vaultlock/controllers/main_controller.py:137-141 | with distinct ids, selecting by an item's printed id finds that item |
| Controller.EditResult | vaultlock/controllers/main_controller.py:568-597 | an edit changes only the credentials table |
| Controller.EditKeepsOwnership | vaultlock/controllers/main_controller.py:568-597 | an edit changes one row at most, and never its owner or deleted flag |
| Controller.RotationWrite | vaultlock/controllers/main_controller.py:612-636 | a refused rotation writes nothing |
| Controller.RotationOutcome | vaultlock/controllers/main_controller.py:612-643 | a refused rotation leaves the store unchanged |
| Controller.RotationOutcomeRules | vaultlock/controllers/main_controller.py:612-643 | refused on a wrong old password or a sentinel; after a commit only the new password verifies, the salt is new, and no PIN unlocks |
| Controller.MainController.constructor | vaultlock/controllers/main_controller.py:33-72 | starts on "All", A to Z, with no user; locked exactly when a vault is registered |
| Controller.MainController.UpdateModels | vaultlock/controllers/main_controller.py:654-698 | the counts loop, the filter loop and the sort give WithModels of the fields |
| Controller.MainController.LoadFromDb | vaultlock/controllers/main_controller.py:700-711 | the fields become Loaded from the store under the active key |
| Controller.MainController.StartLockout | vaultlock/controllers/main_controller.py:267-270 | 30 seconds remain and the timer runs; nothing else changes |
| Controller.MainController.UnlockVault | vaultlock/controllers/main_controller.py:241-265 | when the password verifies but the stored salt is not bytes, False with no counter moved and the earlier service scrubbed; otherwise the answer and counters follow Session.Attempt, success installs the key and reloads, and failure moves only the counters and leaves the active service, its key and salt untouched |
| Controller.MainController.OpenSession | vaultlock/controllers/main_controller.py:247-259 | fails exactly when the stored salt is not bytes, then only scrubbing the earlier service; otherwise installs the key from the user's salt, keeps the password, unlocks, resets the counter and reloads |
| Controller.MainController.UpdateLockout | vaultlock/controllers/main_controller.py:272-280 | one tick of Session.Tick; the timer stops when the countdown reaches 0 |
| Controller.MainController.LockVault | vaultlock/controllers/main_controller.py:323-340 | locked, no master password, service cleared, caches and selection emptied |
| Controller.MainController.Logout | vaultlock/controllers/main_controller.py:367-373 | locked, no user selected, registration mode off |
| Controller.MainController.VerifyPin | vaultlock/controllers/main_controller.py:522-542 | False without a candidate, changing nothing, the active service's key included; with one, the answer, counters, key and fields are exactly unlockVault's on the unwrapped password, a salt that is not bytes included |
| Controller.MainController.SetPin | vaultlock/controllers/main_controller.py:545-558 | with a service and a master password, the store becomes Session.PinSet; otherwise nothing changes |
| Controller.MainController.RemovePin | vaultlock/controllers/main_controller.py:561-565 | the store becomes Session.PinRemoved |
| Controller.MainController.ReEncrypt | vaultlock/controllers/main_controller.py:628-634 | the loop gives Session.RotationItems under the new key |
| Controller.MainController.WriteRotation | vaultlock/controllers/main_controller.py:612-636 | the checks and the write give Controller.RotationWrite |
| Controller.MainController.CommitRotation | vaultlock/controllers/main_controller.py:637-639 | the new key comes from the fallback salt, the new password is kept, and a set PIN is removed |
| Controller.MainController.ChangeMasterPassword | vaultlock/controllers/main_controller.py:612-643 | the answer and store are Controller.RotationOutcome; a refusal changes nothing else, the active service's key included |
| Controller.MainController.BuildUpdates | vaultlock/controllers/main_controller.py:571-594 | the loops build Session.EditUpdates from the form, the user's folders and the active key |
| Controller.MainController.UpdateCredential | vaultlock/controllers/main_controller.py:568-597 | the store becomes Controller.EditResult and the fields are reloaded, or nothing changes |
| Controller.MainController.WriteEdit | vaultlock/controllers/main_controller.py:568-595 | reaches the reload exactly when Controller.EditResult has a store, and leaves that store |
| Controller.MainController.MoveFolder | vaultlock/controllers/main_controller.py:461-466 | a positive parent id is written as given, anything else as NULL, with no cycle check |
| Controller.MainController.GetFolderTree | vaultlock/controllers/main_controller.py:480-496 | the roots, and for every shown folder its children, in list order |
| Controller.MainController.SetSortOrder | vaultlock/controllers/main_controller.py:207-215 | a new order also sets the paired criteria and refreshes the models; an equal value changes nothing |
| Controller.MainController.SetSortCriteria | vaultlock/controllers/main_controller.py:220-230 | new criteria also set the paired order and refresh the models; an equal value changes nothing |
| Controller.MainController.ToggleSort | vaultlock/controllers/main_controller.py:408-410 | the order flips through the sortOrder setter |
| Logos.KeepClean | vaultlock/services/logo_manager.py:148 | only characters in [a-z0-9] remain, and the result is no longer than the input |
| Logos.KeepCleanFixes | vaultlock/services/logo_manager.py:148 | text already in [a-z0-9] is its own normal form |
| Logos.NormalizeIdempotent | vaultlock/services/logo_manager.py:148 | a normalised name is lower-case letters and digits only, and normalising it again changes nothing |
| Logos.NormalizeIgnoresCase | vaultlock/services/logo_manager.py:204 | a name and its lower-case form normalise alike |
| Logos.NormalizeAppend | vaultlock/services/logo_manager.py:204 | normalising a concatenation normalises each part |
| Logos.UpToNetlocEnd | vaultlock/services/logo_manager.py:252 | the netloc stops at the first '/', '?' or '#' |
| Logos.Netloc | vaultlock/services/logo_manager.py:252 | the netloc contains no '/', '?' or '#' |
| Logos.ExtractDomain | vaultlock/services/logo_manager.py:247-254 | None exactly for an empty url or a netloc holding one bracket without the other; otherwise a host without '/', '?' or '#' |
| Logos.UnbalancedHostRefused | vaultlock/services/logo_manager.py:197-254 | a website whose host holds one bracket gives None, and the domain is resolved from the name as without a website |
| Logos.NetlocOfUrl | vaultlock/services/logo_manager.py:252 | the netloc of scheme://host/path is the host |
| Logos.ExtractFromUrl | vaultlock/services/logo_manager.py:247-254 | a url with a scheme gives its host less one "www." |
| Logos.ExtractBareHost | vaultlock/services/logo_manager.py:250-253 | a bare host gets "http://" in front and comes back less one "www." |
| Logos.PlainHostHasNoSeparator | vaultlock/services/logo_manager.py:250 | a host name has no "://", so it gets the prefix |
| Logos.StripsOneWww | vaultlock/services/logo_manager.py:253 | only one "www." is stripped: "www.www.h" gives "www.h" |
| Logos.ResolveDomain | vaultlock/services/logo_manager.py:197-209 | never empty; a non-empty domain from the website wins |
| Logos.ResolveByNormalForm | vaultlock/services/logo_manager.py:203-209 | two names with the same normal form resolve to the same domain, whatever the website |
| Logos.ResolveGuess | vaultlock/services/logo_manager.py:203-209 | a name outside the dictionary gives its normal form plus ".com", whatever its case |
| Logos.LowerBytes | vaultlock/services/logo_manager.py:54 | bytes.lower() lowers exactly the ASCII capitals |
| Logos.Magic | vaultlock/services/logo_manager.py:54 | the magic is at most 12 bytes |
| Logos.FirstUsable | vaultlock/services/logo_manager.py:38-80 | the first source whose request succeeds and whose response passes the checks |
| Logos.FirstAccepted | vaultlock/services/logo_manager.py:38-83 | the body of the first usable response, none exactly when every source fails |
| Logos.Run | vaultlock/services/logo_manager.py:21-83 | the loop over the sources returns Logos.FirstAccepted |
| Logos.PngAccepted | vaultlock/services/logo_manager.py:44-64 | a real PNG of at least 500 bytes served as image/png passes, its "PNG" matched once lowered |
| Logos.CacheBoundaryDiffers | vaultlock/services/logo_manager.py:240-245 | a 500-byte body passes the fetch, yet its cache file is judged invalid |
| Logos.RemoveFirst | vaultlock/services/logo_manager.py:235-236 | list.remove drops one element when present and changes nothing otherwise |
| Logos.DiskLogo | vaultlock/services/logo_manager.py:167-190 | a bundled file that exists, or a cache file that is valid |
| Logos.CleanupDistinct | vaultlock/services/logo_manager.py:234-238 | removing a worker keeps the worker domains distinct |
| Logos.CleanupDomains | vaultlock/services/logo_manager.py:234-238 | removing a worker removes exactly its domain |
| Logos.FetchWorker.constructor | vaultlock/services/logo_manager.py:16-19 | the worker records its domain and the name it reports |
| Logos.LogoManager.constructor | vaultlock/services/logo_manager.py:92-115 | empty caches, no pending fetch, no worker |
| Logos.LogoManager.TriggerAsyncFetch | vaultlock/services/logo_manager.py:211-221 | a pending domain starts nothing; otherwise one fresh worker is added and the domain becomes pending |
| Logos.LogoManager.OnLogoReady | vaultlock/services/logo_manager.py:223-228 | the memory cache maps the domain to the path, reported under the name; nothing else changes |
| Logos.LogoManager.OnFetchFailed | vaultlock/services/logo_manager.py:230-231 | the domain joins the failed set; nothing else changes |
| Logos.LogoManager.CleanupWorker | vaultlock/services/logo_manager.py:234-238 | the worker and its domain are dropped, and one pending worker per domain still holds |
| Logos.LogoManager.GetLogoPath | vaultlock/services/logo_manager.py:139-195 | memory cache first, then failed set, then bundled and cache files, then one fetch; invalid cache files are deleted; a hit or a failed domain starts no worker, and a miss makes the domain pending with one fresh worker unless it was pending already |

## Left out

- Crypto.FromHex: Python's `bytes.fromhex` also skips ASCII whitespace between byte pairs, so `"ab cd"` decodes there but is None in the model. A salt written by `.hex()` (main_controller.py:556) never holds whitespace.
- Qt signals and `emit`, the clipboard, the QTimer itself and `_reset_activity` are not modelled. A timer tick is a call of `UpdateLockout`, and the timer is the flag `lockoutTimerRunning`.
- Controller slots outside the vault engine are not modelled: `selectUser`, `registerVault`, `addCredential`, `deleteCredential`, `toggleFavourite`, folder renaming and colouring, `wipeAllData`, `generateSecurePassword`, `backupVault`, `resolveLogo` and the other property getters. The database operations they call are modelled.
- PBKDF2, Fernet, Argon2id and base64 are symbolic. Keys never collide, and a token carries its plaintext. The Fernet timestamp and IV are a number `iv` passed in.
- `os.urandom` salts, Argon2 random salts and IVs are parameters, and so are timestamps (`datetime('now', 'localtime')` is the `now` value).
- An exception inside a try block that the model cannot produce is given as a parameter. `failAt` is the statement that raises in change_master_password. Any other exception path (the `except: pass` of verifyPin and load_from_db, and unlockVault's handler for a salt PBKDF2 refuses) is reduced to the branches its inputs decide.
- SQL text, PRAGMA introspection and connections are not modelled. The schema is a map from table to (column, primary-key position). `SELECT id FROM users LIMIT 1` has no ORDER BY, so the user it fetches is a parameter `first` that may name any user.
- Folder and credential rows returned to the controller are typed records, not dicts. Python's `str.lower` is modelled on ASCII letters only, and `urlparse` only as far as scheme, "//" and netloc.
- The network requests, QThread workers, file writes and renames, MD5 cache-file names, `user_logo_mapping.json` and the failure of `os.remove` are not modelled. The bundled logo directory is a set of file names, and the cache directory maps a domain to its file size.
- The `if not domain` guard of get_logo_path (vaultlock/services/logo_manager.py:155-156) has no branch in the model. `Logos.ResolveDomain` proves that the resolved domain is never empty, so the guard cannot fire.
- Migration.Migrate: a migration that raises yields no store. Python's sqlite3 has already committed each CREATE and ALTER that ran before the first INSERT or UPDATE, so the file is not restored; what it then holds is not modelled.
- Controller.RowIdOf: SQLite also converts text such as "+5", " 5" or "5.0" to the number 5 and matches row 5; the model matches only plain digit strings.
- Queries.DeleteUser and Queries.WipeUserData: their removal of the user row is promised for a non-NULL id only. With u = 0, standing for Python's None, `WHERE id = NULL` matches no row and nothing is deleted.
- Migration.MigrateLegacyUsers: the copied user row has no `created_at`; the column's default `datetime('now', 'localtime')` would fill it (db_manager.py:54), and nothing in the model reads it.
- Projection.Credentials and Projection.Folders: get_all_credentials and get_all_folders have no ORDER BY (db_manager.py:174-179, 206-211). The model lists rows in increasing id, SQLite's usual scan order, and Listing.SortStable's order of equal names rests on it.
- Logos.ExtractDomain: of urlparse's ValueErrors only the unbalanced bracket is modelled. The check of a bracketed host as an IPv6 or IPvFuture address, and the NFKC check of non-ASCII netlocs, are not; those urls give a domain in the model where the source falls back to the name.
- Controller.MainController.UnlockVault, OpenSession and VerifyPin: when a service is installed and the salt is refused, initialize_encryption scrubs that service and leaves it installed. The model scrubs it and forgets it, as clear_encryption does, so later reads show "[Locked]" where the source shows "". A vault_salt holding a Fernet token is bytes to PBKDF2; the model, whose tokens are symbolic, uses the fallback salt there (Queries.GetVaultSalt gives no bytes for it).
- Session.PinSet and Session.PinRemoved: their own contracts only say that settings alone change. What they write is stated through Session.PinRoundTrip, Session.WrongPinRejected and Session.RemovedPinRejected.
