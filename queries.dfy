/** The statements of DatabaseManager (vaultlock/database/db_manager.py) as
    functions from the store before to the store after, with SQLite's
    constraint checks and its ON DELETE actions written out as explicit
    steps. An operation that can raise returns the Status it ends with; a
    raised statement leaves the store as it was, since the connection rolls
    the transaction back. `now` stands for `datetime('now', 'localtime')`. */
module Queries {
  import opened Common
  import opened Crypto
  import opened Tables
  import opened Migration

  /** How a statement ends: it completes, or SQLite raises IntegrityError. */
  datatype Status = Done | IntegrityError

  /** SQL `=`: NULL is equal to nothing, not even NULL. */
  predicate SqlEq(a: Value, b: Value) {
    a != Null && a == b
  }

  /** The row belongs to user `u` (`WHERE user_id = ?` with u, 0 as NULL). */
  predicate OwnedBy(r: Row, u: nat) {
    SqlEq(Col(r, "user_id"), IdValue(u))
  }

  // ---- the constraints of the CREATE TABLE statements ----

  /** NOT NULL name and the foreign keys of a folders row; parent_id is
      checked only where it was declared as one. */
  predicate FolderRowOk(r: Row, folderIds: set<nat>, userIds: set<nat>, parentFk: bool) {
    && Col(r, "name") != Null
    && (parentFk ==> RefOk(Col(r, "parent_id"), folderIds))
    && RefOk(Col(r, "user_id"), userIds)
  }

  /** NOT NULL service_name and the two foreign keys of a credentials row. */
  predicate CredentialRowOk(r: Row, folderIds: set<nat>, userIds: set<nat>) {
    Col(r, "service_name") != Null && RefOk(Col(r, "folder_id"), folderIds) && RefOk(Col(r, "user_id"), userIds)
  }

  /** Every constraint of the schema holds for every row. */
  ghost predicate Consistent(s: Store) {
    && (forall f :: f in s.folders ==> FolderRowOk(s.folders[f], s.folders.Keys, s.users.Keys, s.parentFk))
    && (forall c :: c in s.credentials ==> CredentialRowOk(s.credentials[c], s.folders.Keys, s.users.Keys))
    && (forall k :: k in s.settings && k.user.Some? ==> k.user.value in s.users)
  }

  // ---- soft delete, restore, permanent delete, purge (lines 293-315) ----

  /** UPDATE credentials SET is_deleted = flag WHERE id = ? */
  function SetDeleted(s: Store, id: nat, flag: int): (r: Store)
    ensures r == s.(credentials := r.credentials)
    ensures r.credentials.Keys == s.credentials.Keys
    ensures id in s.credentials ==> r.credentials[id] == s.credentials[id]["is_deleted" := Int(flag)]
    ensures forall c :: c in s.credentials && c != id ==> r.credentials[c] == s.credentials[c]
  {
    if id in s.credentials then s.(credentials := s.credentials[id := s.credentials[id]["is_deleted" := Int(flag)]])
    else s
  }

  /** delete_credential */
  function SoftDelete(s: Store, id: nat): Store {
    SetDeleted(s, id, 1)
  }

  /** restore_credential */
  function Restore(s: Store, id: nat): Store {
    SetDeleted(s, id, 0)
  }

  /** Restoring a credential that was live before its deletion gives back
      the store exactly. */
  lemma RestoreUndoesSoftDelete(s: Store, id: nat)
    requires id in s.credentials ==> Col(s.credentials[id], "is_deleted") == Int(0) && "is_deleted" in s.credentials[id]
    ensures Restore(SoftDelete(s, id), id) == s
  {
    if id in s.credentials {
      var row := s.credentials[id];
      assert row["is_deleted" := Int(1)]["is_deleted" := Int(0)] == row;
      assert Restore(SoftDelete(s, id), id).credentials == s.credentials;
    }
  }

  /** permanently_delete_credential */
  function PermanentlyDelete(s: Store, id: nat): (r: Store)
    ensures r == s.(credentials := r.credentials)
    ensures r.credentials.Keys == s.credentials.Keys - {id}
    ensures forall c :: c in r.credentials ==> r.credentials[c] == s.credentials[c]
  {
    s.(credentials := s.credentials - {id})
  }

  /** The rows purge_deleted_credentials removes. */
  predicate Purged(r: Row, u: nat) {
    Col(r, "is_deleted") == Int(1) && OwnedBy(r, u)
  }

  /** purge_deleted_credentials */
  function Purge(s: Store, u: nat): (r: Store)
    ensures r == s.(credentials := r.credentials)
    ensures forall c :: c in r.credentials <==> c in s.credentials && !Purged(s.credentials[c], u)
    ensures forall c :: c in r.credentials ==> r.credentials[c] == s.credentials[c]
  {
    s.(credentials := map c | c in s.credentials && !Purged(s.credentials[c], u) :: s.credentials[c])
  }

  lemma PurgeIdempotent(s: Store, u: nat)
    ensures Purge(Purge(s, u), u) == Purge(s, u)
  {
    assert Purge(Purge(s, u), u).credentials == Purge(s, u).credentials;
  }

  /** Flipping the deleted flag touches no constrained column. */
  lemma SetDeletedKeepsConsistency(s: Store, id: nat, flag: int)
    requires Consistent(s)
    ensures Consistent(SetDeleted(s, id, flag))
  {
    var r := SetDeleted(s, id, flag);
    forall c | c in r.credentials
      ensures CredentialRowOk(r.credentials[c], r.folders.Keys, r.users.Keys)
    {
      if c == id {
        assert Col(r.credentials[c], "folder_id") == Col(s.credentials[c], "folder_id");
        assert Col(r.credentials[c], "user_id") == Col(s.credentials[c], "user_id");
        assert Col(r.credentials[c], "service_name") == Col(s.credentials[c], "service_name");
      }
    }
  }

  /** Soft deletion and restoring keep every constraint, and removing
      credential rows never breaks one: nothing refers to them. */
  lemma DeletionsKeepConsistency(s: Store, id: nat, u: nat)
    requires Consistent(s)
    ensures Consistent(SoftDelete(s, id)) && Consistent(Restore(s, id))
    ensures Consistent(PermanentlyDelete(s, id)) && Consistent(Purge(s, u))
  {
    SetDeletedKeepsConsistency(s, id, 1);
    SetDeletedKeepsConsistency(s, id, 0);
  }

  // ---- folder deletion (lines 346-352) ----

  /** UPDATE credentials SET folder_id = NULL for every row whose folder is
      in `gone` (also what ON DELETE SET NULL does). */
  function Detach(creds: map<nat, Row>, gone: set<nat>): (r: map<nat, Row>)
    ensures r.Keys == creds.Keys
    ensures forall c :: c in creds ==>
              r[c] == if RefersInto(creds[c], "folder_id", gone) then creds[c]["folder_id" := Null] else creds[c]
  {
    map c | c in creds :: if RefersInto(creds[c], "folder_id", gone) then creds[c]["folder_id" := Null] else creds[c]
  }

  /** The folders a DELETE of `roots` removes: with the foreign key on
      parent_id, its ON DELETE CASCADE takes every descendant along;
      without it, only the existing roots go. */
  function Deleted(s: Store, roots: set<nat>): (gone: set<nat>)
    ensures roots * s.folders.Keys <= gone <= s.folders.Keys
    ensures s.parentFk ==> ClosedUnderChildren(s.folders, gone)
    ensures !s.parentFk ==> gone == roots * s.folders.Keys
  {
    if s.parentFk then Cascade(s.folders, roots * s.folders.Keys) else roots * s.folders.Keys
  }

  /** Nothing but descendants of the roots is deleted. */
  lemma DeletedIsLeast(s: Store, roots: set<nat>, t: set<nat>)
    requires roots * s.folders.Keys <= t && ClosedUnderChildren(s.folders, t)
    ensures Deleted(s, roots) <= t
  {
    if s.parentFk {
      CascadeIsLeast(s.folders, roots * s.folders.Keys, t);
    }
  }

  /** DELETE FROM folders WHERE id IN ...: the folders Deleted names go,
      and the ON DELETE SET NULL on folder_id detaches the credentials of
      every one of them. */
  function DeleteFolders(s: Store, roots: set<nat>): (r: Store)
    ensures r == s.(folders := r.folders, credentials := r.credentials)
    ensures r.folders.Keys == s.folders.Keys - Deleted(s, roots)
    ensures forall f :: f in r.folders ==> r.folders[f] == s.folders[f]
    ensures r.credentials == Detach(s.credentials, Deleted(s, roots))
  {
    var gone := Deleted(s, roots);
    s.(folders := map f | f in s.folders && f !in gone :: s.folders[f],
       credentials := Detach(s.credentials, gone))
  }

  /** The folders delete_folder removes: `id`, and with the foreign key on
      parent_id all of its descendants. */
  function RemovedFolders(s: Store, id: nat): set<nat> {
    Deleted(s, {id})
  }

  /** delete_folder: detach the folder's credentials, then delete the folder. */
  function DeleteFolder(s: Store, id: nat): (r: Store)
    ensures r.credentials.Keys == s.credentials.Keys
    ensures id !in r.folders
    ensures r.folders.Keys == s.folders.Keys - RemovedFolders(s, id)
    ensures forall f :: f in r.folders ==> r.folders[f] == s.folders[f]
    ensures forall c :: c in s.credentials ==>
              r.credentials[c] == if RefersInto(s.credentials[c], "folder_id", RemovedFolders(s, id) + {id})
                                  then s.credentials[c]["folder_id" := Null] else s.credentials[c]
    ensures r == s.(folders := r.folders, credentials := r.credentials)
  {
    var s1 := s.(credentials := Detach(s.credentials, {id}));
    var r := DeleteFolders(s1, {id});
    forall c | c in s.credentials
      ensures r.credentials[c] == if RefersInto(s.credentials[c], "folder_id", RemovedFolders(s, id) + {id})
                                  then s.credentials[c]["folder_id" := Null] else s.credentials[c]
    {
      var row := s.credentials[c];
      if RefersInto(row, "folder_id", {id}) {
        assert s1.credentials[c] == row["folder_id" := Null];
        assert !RefersInto(s1.credentials[c], "folder_id", RemovedFolders(s, id));
      }
    }
    r
  }

  /** The remaining folders form a closed tree: no surviving folder has a
      removed parent, and a folder that is not a descendant survives. */
  lemma DeleteFolderKeepsOthers(s: Store, id: nat, t: set<nat>)
    requires {id} * s.folders.Keys <= t && ClosedUnderChildren(s.folders, t)
    ensures forall f :: f in s.folders && f !in t ==> f in DeleteFolder(s, id).folders
  {
    DeletedIsLeast(s, {id}, t);
  }

  /** A folders table whose parent_id came from ALTER TABLE has no cascade:
      deleting a folder leaves its children, which keep pointing at it. */
  lemma DeleteFolderWithoutParentFk(s: Store, id: nat)
    requires !s.parentFk
    ensures DeleteFolder(s, id).folders.Keys == s.folders.Keys - {id}
  {
  }

  lemma DeleteFolderKeepsConsistency(s: Store, id: nat)
    requires Consistent(s)
    ensures Consistent(DeleteFolder(s, id))
  {
    SurvivingFoldersOk(s, id);
    SurvivingCredentialsOk(s, id);
  }

  /** No surviving folder has a removed parent under the foreign key. */
  lemma SurvivingFoldersOk(s: Store, id: nat)
    requires forall f :: f in s.folders ==> FolderRowOk(s.folders[f], s.folders.Keys, s.users.Keys, s.parentFk)
    ensures var r := DeleteFolder(s, id);
      forall f :: f in r.folders ==> FolderRowOk(r.folders[f], r.folders.Keys, r.users.Keys, r.parentFk)
  {
    var r := DeleteFolder(s, id);
    var gone := RemovedFolders(s, id);
    forall f | f in r.folders
      ensures FolderRowOk(r.folders[f], r.folders.Keys, r.users.Keys, r.parentFk)
    {
      var row := s.folders[f];
      assert r.folders[f] == row;
      if s.parentFk {
        assert f !in gone;
        assert !RefersInto(row, "parent_id", gone);
      }
    }
  }

  /** No surviving credential refers to a removed folder. */
  lemma SurvivingCredentialsOk(s: Store, id: nat)
    requires forall c :: c in s.credentials ==> CredentialRowOk(s.credentials[c], s.folders.Keys, s.users.Keys)
    ensures var r := DeleteFolder(s, id);
      forall c :: c in r.credentials ==> CredentialRowOk(r.credentials[c], r.folders.Keys, r.users.Keys)
  {
    var r := DeleteFolder(s, id);
    var gone := RemovedFolders(s, id);
    forall c | c in r.credentials
      ensures CredentialRowOk(r.credentials[c], r.folders.Keys, r.users.Keys)
    {
      var row := s.credentials[c];
      assert CredentialRowOk(row, s.folders.Keys, s.users.Keys);
      if RefersInto(row, "folder_id", gone + {id}) {
        var row' := row["folder_id" := Null];
        assert r.credentials[c] == row';
        assert Col(row', "folder_id") == Null;
        assert Col(row', "service_name") == Col(row, "service_name") && Col(row', "user_id") == Col(row, "user_id");
      } else {
        assert r.credentials[c] == row;
        var v := Col(row, "folder_id");
        if v.Int? && v.i >= 0 {
          assert v.i as nat !in gone;
          assert v.i as nat in r.folders.Keys;
        }
      }
    }
  }

  // ---- whitelisted partial updates (lines 251-274, 328-344) ----

  /** The keys update_credential copies from its input, in its order. */
  const CredentialColumns: seq<string> :=
    ["service_name", "username", "email", "website", "folder_id", "is_favourite", "password_blob", "notes_blob"]

  /** The same keys as a set. */
  const CredentialColumnSet: set<string> := set c | c in CredentialColumns

  /** The keys update_folder copies from its input. */
  const FolderColumns: set<string> := {"name", "color", "parent_id", "icon", "updated_at"}

  /** The assignments a SET list makes: the input's allowed keys. */
  function Whitelisted(data: map<string, Value>, allowed: set<string>): (w: map<string, Value>)
    ensures w.Keys == data.Keys * allowed
    ensures forall c :: c in w ==> w[c] == data[c]
  {
    map c | c in data && c in allowed :: data[c]
  }

  /** update_credential; a missing id matches no row and changes nothing. */
  function UpdateCredential(s: Store, id: nat, data: map<string, Value>, now: Value): (r: (Status, Store))
    ensures r.1 == s.(credentials := r.1.credentials)
    ensures r.0 == IntegrityError || Whitelisted(data, CredentialColumnSet) == map[] ==> r.1 == s
  {
    var set_ := Whitelisted(data, CredentialColumnSet);
    if set_ == map[] || id !in s.credentials then (Done, s)
    else
      var row := (s.credentials[id] + set_)["updated_at" := now];
      if Col(row, "service_name") == Null then (IntegrityError, s)
      else if "folder_id" in set_ && !RefOk(set_["folder_id"], s.folders.Keys) then (IntegrityError, s)
      else (Done, s.(credentials := s.credentials[id := row]))
  }

  /** update_credential writes exactly the allowed keys of its input, plus
      the timestamp, into the one row, and nothing else anywhere. */
  lemma UpdateCredentialWritesOnlyWhitelisted(s: Store, id: nat, data: map<string, Value>, now: Value, c: string)
    requires UpdateCredential(s, id, data, now).0 == Done && c != "updated_at"
    ensures var r := UpdateCredential(s, id, data, now).1;
      && r.credentials.Keys == s.credentials.Keys
      && (forall other :: other in s.credentials && other != id ==> r.credentials[other] == s.credentials[other])
      && (id in s.credentials && c in data && c in CredentialColumns ==> Col(r.credentials[id], c) == data[c])
      && (id in s.credentials && (c !in data || c !in CredentialColumns) ==> Col(r.credentials[id], c) == Col(s.credentials[id], c))
  {
    var set_ := Whitelisted(data, CredentialColumnSet);
    assert c in CredentialColumnSet <==> c in CredentialColumns;
    if c in data && c in CredentialColumns {
      assert c in set_;
    }
    if set_ != map[] && id in s.credentials {
      var row := (s.credentials[id] + set_)["updated_at" := now];
      assert UpdateCredential(s, id, data, now).1 == s.(credentials := s.credentials[id := row]);
      if c in data && c in CredentialColumns {
        assert c in set_ && set_[c] == data[c];
        assert Col(row, c) == data[c];
      } else {
        assert c !in set_;
        assert Col(row, c) == Col(s.credentials[id], c);
      }
    }
  }

  lemma UpdateCredentialKeepsConsistency(s: Store, id: nat, data: map<string, Value>, now: Value)
    requires Consistent(s) && "user_id" !in data
    ensures Consistent(UpdateCredential(s, id, data, now).1)
  {
    var r := UpdateCredential(s, id, data, now);
    var set_ := Whitelisted(data, CredentialColumnSet);
    if r.0 == Done && set_ != map[] && id in s.credentials {
      var row := (s.credentials[id] + set_)["updated_at" := now];
      assert r.1 == s.(credentials := s.credentials[id := row]);
      assert Col(row, "user_id") == Col(s.credentials[id], "user_id");
      assert CredentialRowOk(row, s.folders.Keys, s.users.Keys);
    }
  }

  /** update_folder; empty input returns before touching the store. The
      timestamp assignment comes last, so it overrides an `updated_at` given
      in the input. */
  function UpdateFolder(s: Store, id: nat, data: map<string, Value>, now: Value): (r: (Status, Store))
    ensures r.1 == s.(folders := r.1.folders)
    ensures r.0 == IntegrityError || Whitelisted(data, FolderColumns) == map[] ==> r.1 == s
  {
    var set_ := Whitelisted(data, FolderColumns);
    if set_ == map[] || id !in s.folders then (Done, s)
    else
      var row := (s.folders[id] + set_)["updated_at" := now];
      if Col(row, "name") == Null then (IntegrityError, s)
      else if "parent_id" in set_ && s.parentFk && !RefOk(set_["parent_id"], s.folders.Keys) then (IntegrityError, s)
      else (Done, s.(folders := s.folders[id := row]))
  }

  lemma UpdateFolderWritesOnlyWhitelisted(s: Store, id: nat, data: map<string, Value>, now: Value, c: string)
    requires UpdateFolder(s, id, data, now).0 == Done && c != "updated_at"
    ensures var r := UpdateFolder(s, id, data, now).1;
      && r.folders.Keys == s.folders.Keys
      && (forall other :: other in s.folders && other != id ==> r.folders[other] == s.folders[other])
      && (id in s.folders && c in data && c in FolderColumns ==> Col(r.folders[id], c) == data[c])
      && (id in s.folders && (c !in data || c !in FolderColumns) ==> Col(r.folders[id], c) == Col(s.folders[id], c))
  {
    var set_ := Whitelisted(data, FolderColumns);
    if set_ != map[] && id in s.folders {
      var row := (s.folders[id] + set_)["updated_at" := now];
      assert UpdateFolder(s, id, data, now).1 == s.(folders := s.folders[id := row]);
      if c in data && c in FolderColumns {
        assert c in set_ && set_[c] == data[c];
        assert Col(row, c) == data[c];
      } else {
        assert c !in set_;
        assert Col(row, c) == Col(s.folders[id], c);
      }
    }
  }

  /** parent_id only has to name an existing folder: a move may close a
      cycle. Folder 1 at the root with child 2, then 1 moved under 2. */
  lemma MoveCanCloseCycle()
    ensures var s := Store(map[], true, {1}, [], map[], map[
                1 := map["name" := Text("a"), "parent_id" := Null],
                2 := map["name" := Text("b"), "parent_id" := Int(1)]], map[], map[], 1, 3, 1);
            var r := UpdateFolder(s, 1, map["parent_id" := Int(2)], Null);
            && r.0 == Done
            && Col(r.1.folders[1], "parent_id") == Int(2)
            && Col(r.1.folders[2], "parent_id") == Int(1)
  {
    var s := Store(map[], true, {1}, [], map[], map[
                1 := map["name" := Text("a"), "parent_id" := Null],
                2 := map["name" := Text("b"), "parent_id" := Int(1)]], map[], map[], 1, 3, 1);
    var data := map["parent_id" := Int(2)];
    assert "parent_id" in FolderColumns;
    assert Whitelisted(data, FolderColumns) == data;
    var row := (s.folders[1] + data)["updated_at" := Null];
    assert Col(row, "name") == Text("a") && Col(row, "parent_id") == Int(2);
    assert RefOk(Int(2), s.folders.Keys);
    assert UpdateFolder(s, 1, data, Null) == (Done, s.(folders := s.folders[1 := row]));
  }

  /** A move names its new parent: with the foreign key the parent must
      exist, without it any value is written. */
  lemma MoveChecksParentOnlyWithFk(s: Store, id: nat, p: Value, now: Value)
    requires id in s.folders && Col(s.folders[id], "name") != Null
    ensures var r := UpdateFolder(s, id, map["parent_id" := p], now);
      && (r.0 == IntegrityError <==> s.parentFk && !RefOk(p, s.folders.Keys))
      && (r.0 == Done ==> Col(r.1.folders[id], "parent_id") == p)
  {
    var data := map["parent_id" := p];
    assert "parent_id" in FolderColumns;
    assert Whitelisted(data, FolderColumns) == data;
    var row := (s.folders[id] + data)["updated_at" := now];
    assert Col(row, "name") == Col(s.folders[id], "name") && Col(row, "parent_id") == p;
  }

  // ---- inserts (lines 214-249, 317-326, 367-393) ----

  /** `SELECT id FROM folders WHERE name=? AND user_id=?`, first row by id. */
  function FolderByName(folders: map<nat, Row>, name: string, u: nat, from: nat, bound: nat): (r: Option<nat>)
    ensures r.Some? ==> r.value in folders && from <= r.value < bound
    ensures r.Some? ==> Col(folders[r.value], "name") == Text(name) && OwnedBy(folders[r.value], u)
    ensures r.None? ==> forall f :: f in folders && from <= f < bound ==>
              !(Col(folders[f], "name") == Text(name) && OwnedBy(folders[f], u))
    ensures r.Some? ==> forall f :: f in folders && from <= f < r.value ==>
              !(Col(folders[f], "name") == Text(name) && OwnedBy(folders[f], u))
    decreases bound - from
  {
    if from >= bound then None
    else if from in folders && Col(folders[from], "name") == Text(name) && OwnedBy(folders[from], u) then Some(from)
    else FolderByName(folders, name, u, from + 1, bound)
  }

  /** The input of add_credential, with absent keys as NULL / "". */
  datatype NewCredential = NewCredential(
    serviceName: Value, username: Value, email: Value, website: Value,
    folder: Option<string>, favourite: bool, password: string, notes: string)

  /** add_credential: Returned(None) without an active service,
      Returned(Some(id)) on insert; Raised when a constraint fails. */
  datatype Outcome<T> = Returned(value: T) | Raised

  function AddCredential(s: Store, data: NewCredential, u: nat, active: Option<Key>, iv1: nat, iv2: nat, now: Value)
    : (r: (Outcome<Option<nat>>, Store))
    ensures r.0.Raised? || r.0 == Returned(None) ==> r.1 == s
    ensures r.0 == Returned(None) <==> active.None?
    ensures r.0.Raised? <==> active.Some? && (data.serviceName == Null || !RefOk(IdValue(u), s.users.Keys))
    ensures r.0.Returned? && r.0.value.Some? ==>
              && r.0.value.value == s.nextCredentialId && r.0.value.value !in s.credentials
              && r.1 == s.(credentials := r.1.credentials, nextCredentialId := s.nextCredentialId + 1)
              && s.nextCredentialId in r.1.credentials
              && r.1.credentials == s.credentials[s.nextCredentialId := NewCredentialRow(data, FolderFor(s, data.folder, u), u, active, iv1, iv2, now)]
    requires forall c :: c in s.credentials ==> c < s.nextCredentialId
  {
    var folderId := FolderFor(s, data.folder, u);
    if active.None? then (Returned(None), s)
    else
      var row := NewCredentialRow(data, folderId, u, active, iv1, iv2, now);
      if data.serviceName == Null || !RefOk(IdValue(u), s.users.Keys) then (Raised, s)
      else (Returned(Some(s.nextCredentialId)),
            s.(credentials := s.credentials[s.nextCredentialId := row], nextCredentialId := s.nextCredentialId + 1))
  }

  /** The folder_id add_credential stores: the user's first folder of that
      name, or NULL for no name, "No Folder" or a name with no folder. */
  function FolderFor(s: Store, folder: Option<string>, u: nat): (v: Value)
    ensures RefOk(v, s.folders.Keys)
    ensures v != Null ==> folder.Some? && Col(s.folders[v.i as nat], "name") == Text(folder.value)
                          && OwnedBy(s.folders[v.i as nat], u)
  {
    if folder.Some? && folder.value != "" && folder.value != "No Folder" then
      match FolderByName(s.folders, folder.value, u, 0, s.nextFolderId)
      case Some(f) => Int(f)
      case None => Null
    else Null
  }

  /** The credentials row add_credential inserts, both secrets sealed under
      the active key, not deleted. */
  function NewCredentialRow(data: NewCredential, folderId: Value, u: nat, active: Option<Key>,
                            iv1: nat, iv2: nat, now: Value): (row: Row)
    ensures Col(row, "service_name") == data.serviceName && Col(row, "folder_id") == folderId
    ensures Col(row, "user_id") == IdValue(u) && Col(row, "is_deleted") == Int(0)
    ensures Col(row, "password_blob") == Cipher(EncryptWith(active, data.password, iv1))
    ensures Col(row, "notes_blob") == Cipher(EncryptWith(active, data.notes, iv2))
  {
    map[
      "service_name" := data.serviceName, "username" := data.username, "email" := data.email,
      "website" := data.website, "folder_id" := folderId, "user_id" := IdValue(u),
      "is_favourite" := Int(if data.favourite then 1 else 0),
      "password_blob" := Cipher(EncryptWith(active, data.password, iv1)),
      "notes_blob" := Cipher(EncryptWith(active, data.notes, iv2)),
      "is_deleted" := Int(0), "created_at" := now, "updated_at" := now]
  }

  /** The folders row add_folder inserts, owned by `u`. */
  function NewFolderRow(name: Value, u: nat, color: Value, parentId: Value, icon: Value, now: Value): (row: Row)
    ensures Col(row, "name") == name && Col(row, "color") == color && Col(row, "parent_id") == parentId
    ensures Col(row, "user_id") == IdValue(u) && Col(row, "icon") == icon
    ensures Col(row, "created_at") == now && Col(row, "updated_at") == now
  {
    map["name" := name, "color" := color, "parent_id" := parentId, "user_id" := IdValue(u),
        "icon" := icon, "created_at" := now, "updated_at" := now]
  }

  /** add_folder: None when the insert raises IntegrityError (caught there). */
  function AddFolder(s: Store, name: Value, u: nat, color: Value, parentId: Value, icon: Value, now: Value)
    : (r: (Option<nat>, Store))
    requires forall f :: f in s.folders ==> f < s.nextFolderId
    ensures r.0.None? ==> r.1 == s
    ensures r.0.None? <==> name == Null || (s.parentFk && !RefOk(parentId, s.folders.Keys)) || !RefOk(IdValue(u), s.users.Keys)
    ensures r.0.Some? ==> r.0.value == s.nextFolderId && r.0.value !in s.folders
    ensures r.0.Some? ==> r.1 == s.(folders := s.folders[s.nextFolderId := NewFolderRow(name, u, color, parentId, icon, now)],
                                    nextFolderId := s.nextFolderId + 1)
  {
    if name == Null || (s.parentFk && !RefOk(parentId, s.folders.Keys)) || !RefOk(IdValue(u), s.users.Keys) then (None, s)
    else
      (Some(s.nextFolderId),
       s.(folders := s.folders[s.nextFolderId := NewFolderRow(name, u, color, parentId, icon, now)],
          nextFolderId := s.nextFolderId + 1))
  }

  lemma AddFolderKeepsConsistency(s: Store, name: Value, u: nat, color: Value, parentId: Value, icon: Value, now: Value)
    requires Consistent(s) && forall f :: f in s.folders ==> f < s.nextFolderId
    ensures Consistent(AddFolder(s, name, u, color, parentId, icon, now).1)
  {
  }

  lemma AddCredentialKeepsConsistency(s: Store, data: NewCredential, u: nat, active: Option<Key>, iv1: nat, iv2: nat, now: Value)
    requires Consistent(s) && forall c :: c in s.credentials ==> c < s.nextCredentialId
    ensures Consistent(AddCredential(s, data, u, active, iv1, iv2, now).1)
  {
  }

  // ---- settings (lines 424-437) ----

  /** get_setting: the user's stored value, or the default for no user or
      no such row. */
  function GetSetting(s: Store, u: nat, key: string, default: SettingValue): (v: SettingValue)
    ensures u != 0 && SettingKey(Some(u), key) in s.settings ==> v == s.settings[SettingKey(Some(u), key)]
    ensures u == 0 || SettingKey(Some(u), key) !in s.settings ==> v == default
  {
    if u == 0 then default
    else if SettingKey(Some(u), key) in s.settings then s.settings[SettingKey(Some(u), key)]
    else default
  }

  /** set_setting: INSERT OR REPLACE; raises when the user row is missing. */
  function SetSetting(s: Store, u: nat, key: string, value: SettingValue): (r: (Status, Store))
    ensures r.1 == s.(settings := r.1.settings)
    ensures u == 0 || r.0 == IntegrityError ==> r.1 == s
    ensures r.0 == IntegrityError <==> u != 0 && u !in s.users
  {
    if u == 0 then (Done, s)
    else if u !in s.users then (IntegrityError, s)
    else (Done, s.(settings := s.settings[SettingKey(Some(u), key) := value]))
  }

  /** A value set for a user reads back, and no other setting moves. */
  lemma SetThenGet(s: Store, u: nat, key: string, value: SettingValue, u': nat, key': string, d: SettingValue)
    requires u != 0 && u in s.users
    ensures GetSetting(SetSetting(s, u, key, value).1, u, key, d) == value
    ensures (u', key') != (u, key) ==> GetSetting(SetSetting(s, u, key, value).1, u', key', d) == GetSetting(s, u', key', d)
  {
  }

  // ---- users (lines 367-413) ----

  /** The settings register_vault seeds for a new user, in its order. */
  const DefaultSettings: seq<(string, string)> := [
    ("auto_lock_timer", "Immediately"), ("lock_on_minimize", "1"), ("clipboard_clear_time", "30"),
    ("clear_clipboard_on_exit", "1"), ("minimize_to_tray", "1"), ("close_to_minimize", "1"),
    ("pin_code", ""), ("failed_attempts_limit", "5"), ("hide_passwords_default", "1"),
    ("disable_screenshots", "0")]

  /** The INSERT OR REPLACE statements of `pairs` for user `u`, in order. */
  function Seeded(settings: map<SettingKey, SettingValue>, u: nat, pairs: seq<(string, string)>)
    : (r: map<SettingKey, SettingValue>)
    ensures forall k :: k in settings ==> k in r
    ensures forall k :: k in r ==> k in settings || (k.user == Some(u) && exists i :: 0 <= i < |pairs| && pairs[i].0 == k.key)
    ensures forall k :: k in settings && k.user != Some(u) ==> r[k] == settings[k]
  {
    if pairs == [] then settings
    else
      var last := pairs[|pairs| - 1];
      var r := Seeded(settings, u, pairs[..|pairs| - 1]);
      assert forall k :: k in r ==> k in settings || (k.user == Some(u) && exists i :: 0 <= i < |pairs| && pairs[i].0 == k.key);
      r[SettingKey(Some(u), last.0) := Str(last.1)]
  }

  /** With distinct keys, each seeded key reads back its own value. */
  lemma {:induction false} SeededValue(settings: map<SettingKey, SettingValue>, u: nat, pairs: seq<(string, string)>, i: nat)
    requires i < |pairs|
    requires forall a, b :: 0 <= a < b < |pairs| ==> pairs[a].0 != pairs[b].0
    ensures SettingKey(Some(u), pairs[i].0) in Seeded(settings, u, pairs)
    ensures Seeded(settings, u, pairs)[SettingKey(Some(u), pairs[i].0)] == Str(pairs[i].1)
  {
    if i < |pairs| - 1 {
      SeededValue(settings, u, pairs[..|pairs| - 1], i);
    }
  }

  /** register_vault: Raised when the e-mail is taken (UNIQUE); otherwise
      the new user's id and the store with the user row and its default
      settings. */
  function RegisterVault(s: Store, fullName: Value, email: Value, password: string, salt: seq<byte>, nonce: nat, now: Value)
    : (r: (Outcome<nat>, Store))
    ensures r.0.Raised? <==> EmailTaken(s.users, email)
    ensures r.0.Raised? ==> r.1 == s
    ensures r.0.Returned? ==> r.0.value == s.nextUserId
    ensures r.0.Returned? ==> r.1 == s.(users := s.users[s.nextUserId := NewUserRow(fullName, email, password, salt, nonce, now)],
                                        settings := Seeded(s.settings, s.nextUserId, DefaultSettings),
                                        nextUserId := s.nextUserId + 1)
  {
    if EmailTaken(s.users, email) then (Raised, s)
    else (Returned(s.nextUserId), Registered(s, NewUserRow(fullName, email, password, salt, nonce, now)))
  }

  /** The store after the user INSERT and the settings loop. */
  function Registered(s: Store, row: Row): (r: Store)
    ensures r == s.(users := s.users[s.nextUserId := row],
                    settings := Seeded(s.settings, s.nextUserId, DefaultSettings),
                    nextUserId := s.nextUserId + 1)
  {
    s.(users := s.users[s.nextUserId := row],
       settings := Seeded(s.settings, s.nextUserId, DefaultSettings), nextUserId := s.nextUserId + 1)
  }

  /** The users row register_vault inserts: the password hashed, the salt
      as given, and the account inactive. */
  function NewUserRow(fullName: Value, email: Value, password: string, salt: seq<byte>, nonce: nat, now: Value)
    : (row: Row)
    ensures Col(row, "master_password_hash") == Hashed(Argon2id(password, nonce))
    ensures Col(row, "vault_salt") == Bytes(salt) && Col(row, "email") == email
  {
    map["full_name" := fullName, "email" := email,
        "master_password_hash" := Hashed(Argon2id(password, nonce)),
        "vault_salt" := Bytes(salt), "is_active" := Int(0), "created_at" := now]
  }

  /** verify_password: False for a missing user, an empty hash, a hash that
      does not parse, and a mismatch. */
  function VerifyPassword(s: Store, u: nat, password: string): (ok: bool)
    ensures ok <==> u != 0 && u in s.users && Col(s.users[u], "master_password_hash").Hashed?
                    && HashMatches(Col(s.users[u], "master_password_hash").hash, password)
  {
    if u == 0 || u !in s.users then false
    else match Col(s.users[u], "master_password_hash")
      case Hashed(h) => HashMatches(h, password)
      case _ => false
  }

  /** get_vault_salt, as the bytes initialize_encryption derives from. */
  function GetVaultSalt(s: Store, u: nat): (salt: Option<seq<byte>>)
    ensures salt.Some? <==> u in s.users && Col(s.users[u], "vault_salt").Bytes?
  {
    if u in s.users && Col(s.users[u], "vault_salt").Bytes? then Some(Col(s.users[u], "vault_salt").b) else None
  }

  /** get_vault_salt returns a truthy value that is not bytes (an INTEGER
      or TEXT cell, as a legacy row may hold), which PBKDF2HMAC refuses
      with a TypeError. */
  predicate SaltRejected(s: Store, u: nat) {
    && u in s.users
    && Truthy(Col(s.users[u], "vault_salt"))
    && (Col(s.users[u], "vault_salt").Int? || Col(s.users[u], "vault_salt").Text?
        || Col(s.users[u], "vault_salt").Hashed?)
  }

  /** A freshly registered user signs in with their password and no other,
      and derives their key from their own salt, which PBKDF2 accepts. */
  lemma RegisterThenVerify(s: Store, fullName: Value, email: Value, password: string, salt: seq<byte>, nonce: nat,
                           now: Value, other: string)
    requires WellFormed(s)
    requires RegisterVault(s, fullName, email, password, salt, nonce, now).0.Returned?
    ensures var (o, r) := RegisterVault(s, fullName, email, password, salt, nonce, now);
      && VerifyPassword(r, o.value, password)
      && (VerifyPassword(r, o.value, other) <==> other == password)
      && GetVaultSalt(r, o.value) == Some(salt) && !SaltRejected(r, o.value)
  {
  }

  /** A freshly registered user reads every default setting back. */
  lemma RegisterSeedsDefaults(s: Store, fullName: Value, email: Value, password: string, salt: seq<byte>, nonce: nat,
                              now: Value, i: nat)
    requires WellFormed(s) && i < |DefaultSettings|
    requires RegisterVault(s, fullName, email, password, salt, nonce, now).0.Returned?
    ensures var (o, r) := RegisterVault(s, fullName, email, password, salt, nonce, now);
      GetSetting(r, o.value, DefaultSettings[i].0, Str("")) == Str(DefaultSettings[i].1)
  {
    var id := s.nextUserId;
    DefaultKeysDistinct();
    SeededValue(s.settings, id, DefaultSettings, i);
  }

  /** No key is seeded twice: the keys differ in length, except two that
      differ in their first letter. */
  lemma DefaultKeysDistinct()
    ensures forall a, b :: 0 <= a < b < |DefaultSettings| ==> DefaultSettings[a].0 != DefaultSettings[b].0
  {
    assert DefaultSettings[1].0[0] != DefaultSettings[4].0[0];
  }

  /** Registering keeps the ids below their counters and leaves the schema alone. */
  lemma RegisterKeepsShape(s: Store, fullName: Value, email: Value, password: string, salt: seq<byte>, nonce: nat, now: Value)
    requires WellFormed(s) && MigratedSchema(s)
    ensures var r := RegisterVault(s, fullName, email, password, salt, nonce, now).1;
      WellFormed(r) && MigratedSchema(r)
  {
  }

  lemma RegisterKeepsConsistency(s: Store, fullName: Value, email: Value, password: string, salt: seq<byte>, nonce: nat, now: Value)
    requires Consistent(s)
    ensures Consistent(RegisterVault(s, fullName, email, password, salt, nonce, now).1)
  {
  }

  // ---- master-password rotation (lines 276-291) ----

  /** The credential UPDATEs of a rotation, in order. */
  function Reencrypted(creds: map<nat, Row>, items: seq<(nat, Token, Token)>, now: Value): (r: map<nat, Row>)
    ensures r.Keys == creds.Keys
  {
    if items == [] then creds
    else
      var rest := Reencrypted(creds, items[..|items| - 1], now);
      var (id, p, n) := items[|items| - 1];
      if id in rest then rest[id := rest[id]["password_blob" := Cipher(p)]["notes_blob" := Cipher(n)]["updated_at" := now]]
      else rest
  }

  /** Every statement of change_master_password applied. */
  function Rotated(s: Store, u: nat, newPassword: string, newSalt: seq<byte>, nonce: nat,
                   items: seq<(nat, Token, Token)>, now: Value): (r: Store)
    ensures r == s.(users := r.users, credentials := r.credentials)
  {
    var users :=
      if u in s.users then
        s.users[u := s.users[u]["master_password_hash" := Hashed(Argon2id(newPassword, nonce))]["vault_salt" := Bytes(newSalt)]]
      else s.users;
    s.(users := users, credentials := Reencrypted(s.credentials, items, now))
  }

  /** change_master_password: when statement number `failAt` (0 the user
      update, i + 1 the i-th credential) raises, for a reason outside the
      model such as a locked or full database file, everything is rolled
      back and the result is False. */
  function ChangeMasterPassword(s: Store, u: nat, newPassword: string, newSalt: seq<byte>, nonce: nat,
                                items: seq<(nat, Token, Token)>, now: Value, failAt: Option<nat>): (r: (bool, Store))
    ensures r.0 <==> failAt.None? || failAt.value > |items|
    ensures r.1 == if r.0 then Rotated(s, u, newPassword, newSalt, nonce, items, now) else s
  {
    if failAt.Some? && failAt.value <= |items| then (false, s)
    else (true, Rotated(s, u, newPassword, newSalt, nonce, items, now))
  }

  /** After a committed rotation the new password verifies, the old one
      does not unless it is the same, and the user's salt is the new one. */
  lemma RotationReplacesPassword(s: Store, u: nat, newPassword: string, newSalt: seq<byte>, nonce: nat,
                                 items: seq<(nat, Token, Token)>, now: Value, other: string)
    requires u in s.users && u != 0
    ensures var r := Rotated(s, u, newPassword, newSalt, nonce, items, now);
      && VerifyPassword(r, u, newPassword)
      && (VerifyPassword(r, u, other) <==> other == newPassword)
      && GetVaultSalt(r, u) == Some(newSalt)
  {
  }

  /** With distinct ids, every listed credential holds its new blobs. */
  lemma {:induction false} ReencryptedHolds(creds: map<nat, Row>, items: seq<(nat, Token, Token)>, now: Value, i: nat)
    requires i < |items| && items[i].0 in creds
    requires forall a, b :: 0 <= a < b < |items| ==> items[a].0 != items[b].0
    ensures Col(Reencrypted(creds, items, now)[items[i].0], "password_blob") == Cipher(items[i].1)
    ensures Col(Reencrypted(creds, items, now)[items[i].0], "notes_blob") == Cipher(items[i].2)
  {
    if i < |items| - 1 {
      ReencryptedHolds(creds, items[..|items| - 1], now, i);
    }
  }

  /** A credential that is not listed keeps its blobs. */
  lemma {:induction false} ReencryptedKeepsOthers(creds: map<nat, Row>, items: seq<(nat, Token, Token)>, now: Value, c: nat)
    requires c in creds && forall i :: 0 <= i < |items| ==> items[i].0 != c
    ensures Reencrypted(creds, items, now)[c] == creds[c]
  {
    if items != [] {
      ReencryptedKeepsOthers(creds, items[..|items| - 1], now, c);
    }
  }

  // ---- wipe_user_data (lines 439-445) ----

  /** DELETE FROM users WHERE id = ?, with the ON DELETE CASCADE of every
      table that refers to users; `id = NULL` (u = 0) matches no row. */
  function DeleteUser(s: Store, u: nat): (r: Store)
    ensures u != 0 ==> u !in r.users
    ensures r.users == if u == 0 then s.users else s.users - {u}
  {
    if u == 0 || u !in s.users then s
    else
    var folderRoots := set f | f in s.folders && RefersInto(s.folders[f], "user_id", {u});
    var s1 := s.(credentials := map c | c in s.credentials && !RefersInto(s.credentials[c], "user_id", {u}) :: s.credentials[c]);
    var s2 := DeleteFolders(s1, folderRoots);
    s2.(users := s2.users - {u}, settings := map k | k in s2.settings && k.user != Some(u) :: s2.settings[k])
  }

  /** A DELETE that names no folder removes nothing. */
  lemma DeleteNoFolders(s: Store)
    ensures DeleteFolders(s, {}) == s
  {
    if s.parentFk {
      assert ChildFolders(s.folders, {}) == {};
    }
    assert Deleted(s, {}) == {};
    assert DeleteFolders(s, {}).folders == s.folders;
    assert Detach(s.credentials, {}) == s.credentials;
  }

  /** The folders of user `u`: what `DELETE FROM folders WHERE user_id = ?` names. */
  function OwnedFolders(s: Store, u: nat): (o: set<nat>)
    ensures forall f :: f in o <==> f in s.folders && OwnedBy(s.folders[f], u)
  {
    set f | f in s.folders && OwnedBy(s.folders[f], u)
  }

  /** wipe_user_data: the user's credentials, then their folders (and,
      through the cascade, their subfolders), then the user. Every other
      row stays as it was, except that credentials filed in a removed
      folder lose their folder. */
  function WipeUserData(s: Store, u: nat): (r: Store)
    ensures u != 0 ==> u !in r.users
    ensures r.users == if u == 0 then s.users else s.users - {u}
    ensures forall c :: c in r.credentials ==> c in s.credentials && !OwnedBy(s.credentials[c], u)
    ensures forall f :: f in r.folders ==> f in s.folders && !OwnedBy(s.folders[f], u)
    ensures r.folders == map f | f in s.folders && f !in Deleted(s, OwnedFolders(s, u)) :: s.folders[f]
    ensures r.credentials == Detach(map c | c in s.credentials && !OwnedBy(s.credentials[c], u) :: s.credentials[c],
                                    Deleted(s, OwnedFolders(s, u)))
    ensures forall k :: k in r.settings ==> k in s.settings && r.settings[k] == s.settings[k]
    ensures forall k :: k in s.settings && k.user != Some(u) ==> k in r.settings
    ensures r.settings == if u != 0 && u in s.users then map k | k in s.settings && k.user != Some(u) :: s.settings[k]
                          else s.settings
    ensures r == s.(users := r.users, folders := r.folders, credentials := r.credentials, settings := r.settings)
  {
    var kept := map c | c in s.credentials && !OwnedBy(s.credentials[c], u) :: s.credentials[c];
    var s1 := s.(credentials := kept);
    var gone := Deleted(s, OwnedFolders(s, u));
    assert OwnedFolders(s1, u) == OwnedFolders(s, u) && Deleted(s1, OwnedFolders(s1, u)) == gone;
    var s2 := DeleteFolders(s1, OwnedFolders(s1, u));
    assert s2 == s.(folders := s2.folders, credentials := Detach(kept, gone));
    assert forall f :: f in s2.folders ==> !OwnedBy(s1.folders[f], u);
    DeleteUserOwningNothing(s2, u);
    DeleteUser(s2, u)
  }

  /** Once the user's credentials and folders are gone, deleting the user
      removes only the user row and the user's settings. */
  lemma DeleteUserOwningNothing(s: Store, u: nat)
    requires forall c :: c in s.credentials ==> !OwnedBy(s.credentials[c], u)
    requires forall f :: f in s.folders ==> !OwnedBy(s.folders[f], u)
    ensures DeleteUser(s, u) ==
              if u == 0 || u !in s.users then s
              else s.(users := s.users - {u}, settings := map k | k in s.settings && k.user != Some(u) :: s.settings[k])
  {
    if u != 0 && u in s.users {
      NothingRefersToUser(s, u);
      var roots := set f | f in s.folders && RefersInto(s.folders[f], "user_id", {u});
      var kept := map c | c in s.credentials && !RefersInto(s.credentials[c], "user_id", {u}) :: s.credentials[c];
      assert roots == {};
      assert kept == s.credentials;
      assert DeleteFolders(s.(credentials := kept), roots) == s by {
        DeleteNoFolders(s);
      }
    }
  }

  /** With u's rows gone, no folder or credential refers to u. */
  lemma NothingRefersToUser(s: Store, u: nat)
    requires u != 0
    requires forall c :: c in s.credentials ==> !OwnedBy(s.credentials[c], u)
    requires forall f :: f in s.folders ==> !OwnedBy(s.folders[f], u)
    ensures forall f :: f in s.folders ==> !RefersInto(s.folders[f], "user_id", {u})
    ensures forall c :: c in s.credentials ==> !RefersInto(s.credentials[c], "user_id", {u})
  {
  }

  /** Besides the user's own folders, only their descendants go: a folder
      outside any child-closed set holding the user's folders survives as
      it was. */
  lemma WipeKeepsUnrelatedFolders(s: Store, u: nat, t: set<nat>)
    requires OwnedFolders(s, u) <= t && ClosedUnderChildren(s.folders, t)
    ensures forall f :: f in s.folders && f !in t ==>
              f in WipeUserData(s, u).folders && WipeUserData(s, u).folders[f] == s.folders[f]
  {
    DeletedIsLeast(s, OwnedFolders(s, u), t);
  }

  /** Wiping a user removes only what belonged to them, and leaves every
      other user's settings as they were. */
  lemma WipeKeepsOtherUsersSettings(s: Store, u: nat, v: nat, key: string, d: SettingValue)
    requires v != u
    ensures GetSetting(WipeUserData(s, u), v, key, d) == GetSetting(s, v, key, d)
  {
  }
}
