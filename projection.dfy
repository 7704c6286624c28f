/** What get_all_credentials and get_all_folders
    (vaultlock/database/db_manager.py, lines 170-212) return: the rows of
    one user in rowid order, the credentials with their folder name joined
    in and their secret columns decrypted under the active service. */
module Projection {
  import opened Common
  import opened Crypto
  import opened Tables
  import opened Queries

  /** The folder name the LEFT JOIN supplies; NULL when no folder matches. */
  function JoinedName(folders: map<nat, Row>, folderId: Value): (v: Value)
    ensures v != Null ==> folderId.Int? && folderId.i >= 0 && folderId.i as nat in folders
  {
    if folderId.Int? && folderId.i >= 0 && folderId.i as nat in folders then Col(folders[folderId.i as nat], "name")
    else Null
  }

  /** `folder_name if folder_name else "No Folder"` */
  function FolderLabel(name: Value): string {
    if name.Text? && name.s != "" then name.s else "No Folder"
  }

  /** What a password or notes column shows: "" for an empty blob,
      "[Locked]" with no active service, otherwise the service's decrypt. A
      text or byte value that is no Fernet token fails authentication; any
      other value makes the library raise something else. */
  function BlobText(active: Option<Key>, blob: Value): (t: string)
    ensures !Truthy(blob) ==> t == ""
    ensures Truthy(blob) && active.None? ==> t == LockedSentinel
    ensures Truthy(blob) && active.Some? && blob.Cipher? ==> t == DecryptWith(active, blob.token)
  {
    if !Truthy(blob) then ""
    else if active.None? then LockedSentinel
    else match blob
      case Cipher(token) => DecryptWith(active, token)
      case Bytes(_) => DecryptionFailed
      case Text(_) => DecryptionFailed
      case _ => ErrorSentinel
  }

  /** One entry of get_all_credentials. */
  function ViewOf(s: Store, id: nat, active: Option<Key>): (v: CredentialView)
    requires id in s.credentials
    ensures v.id == id
  {
    var r := s.credentials[id];
    CredentialView(
      id, AsText(Col(r, "service_name")), AsText(Col(r, "username")), Col(r, "folder_id"), Col(r, "user_id"),
      FolderLabel(JoinedName(s.folders, Col(r, "folder_id"))),
      Truthy(Col(r, "is_favourite")), Truthy(Col(r, "is_deleted")),
      BlobText(active, Col(r, "password_blob")), BlobText(active, Col(r, "notes_blob")))
  }

  /** get_all_credentials over the rowids below `n`. */
  function Credentials(s: Store, u: nat, active: Option<Key>, n: nat): seq<CredentialView> {
    if n == 0 then []
    else
      Credentials(s, u, active, n - 1)
      + (if n - 1 in s.credentials && OwnedBy(s.credentials[n - 1], u) then [ViewOf(s, n - 1, active)] else [])
  }

  /** Every entry is the view of a row of user `u`, and the entries come in
      strictly increasing id order (so no row is listed twice). */
  lemma {:induction false} CredentialsSound(s: Store, u: nat, active: Option<Key>, n: nat)
    ensures forall i :: 0 <= i < |Credentials(s, u, active, n)| ==>
              var v := Credentials(s, u, active, n)[i];
              v.id < n && v.id in s.credentials && OwnedBy(s.credentials[v.id], u) && v == ViewOf(s, v.id, active)
    ensures forall i, j :: 0 <= i < j < |Credentials(s, u, active, n)| ==>
              Credentials(s, u, active, n)[i].id < Credentials(s, u, active, n)[j].id
  {
    if n > 0 {
      CredentialsSound(s, u, active, n - 1);
    }
  }

  /** Every row of user `u` below `n` is listed. */
  lemma {:induction false} CredentialsComplete(s: Store, u: nat, active: Option<Key>, n: nat, id: nat)
    requires id < n && id in s.credentials && OwnedBy(s.credentials[id], u)
    ensures ViewOf(s, id, active) in Credentials(s, u, active, n)
  {
    if id < n - 1 {
      CredentialsComplete(s, u, active, n - 1, id);
    }
  }

  /** The listing rules: the user filter, the "No Folder" label, the empty
      blob, the missing service. */
  lemma ViewRules(s: Store, id: nat, active: Option<Key>)
    requires id in s.credentials
    ensures var v := ViewOf(s, id, active); var r := s.credentials[id];
      && (!RefersInto(r, "folder_id", s.folders.Keys) ==> v.folder == "No Folder")
      && (!Truthy(Col(r, "password_blob")) ==> v.password == "")
      && (!Truthy(Col(r, "notes_blob")) ==> v.notes == "")
      && (active.None? && Truthy(Col(r, "password_blob")) ==> v.password == LockedSentinel)
      && (active.None? && Truthy(Col(r, "notes_blob")) ==> v.notes == LockedSentinel)
  {
  }

  /** A blob written by the active service reads back as the text written. */
  lemma ViewRoundTrip(password: string, salt: seq<byte>, text: string, iv: nat)
    ensures BlobText(Some(Derive(password, salt)), Cipher(EncryptWith(Some(Derive(password, salt)), text, iv))) == text
  {
    RoundTrip(password, salt, text, iv);
  }

  /** The COUNT(*) of live credentials filed in folder `f`. */
  function ItemCount(s: Store, f: nat): nat {
    |set c | c in s.credentials && Col(s.credentials[c], "folder_id") == Int(f) && Col(s.credentials[c], "is_deleted") == Int(0)|
  }

  function FolderViewOf(s: Store, f: nat): (v: FolderView)
    requires f in s.folders
    ensures v.id == f
  {
    var r := s.folders[f];
    FolderView(f, if Col(r, "name").Text? then Col(r, "name").s else "", Col(r, "color"), Col(r, "parent_id"),
               Col(r, "icon"), ItemCount(s, f))
  }

  /** get_all_folders over the rowids below `n`. */
  function Folders(s: Store, u: nat, n: nat): seq<FolderView> {
    if n == 0 then []
    else
      Folders(s, u, n - 1)
      + (if n - 1 in s.folders && OwnedBy(s.folders[n - 1], u) then [FolderViewOf(s, n - 1)] else [])
  }

  lemma {:induction false} FoldersSound(s: Store, u: nat, n: nat)
    ensures forall i :: 0 <= i < |Folders(s, u, n)| ==>
              var v := Folders(s, u, n)[i];
              v.id < n && v.id in s.folders && OwnedBy(s.folders[v.id], u) && v == FolderViewOf(s, v.id)
    ensures forall i, j :: 0 <= i < j < |Folders(s, u, n)| ==> Folders(s, u, n)[i].id < Folders(s, u, n)[j].id
  {
    if n > 0 {
      FoldersSound(s, u, n - 1);
    }
  }

  lemma {:induction false} FoldersComplete(s: Store, u: nat, n: nat, f: nat)
    requires f < n && f in s.folders && OwnedBy(s.folders[f], u)
    ensures FolderViewOf(s, f) in Folders(s, u, n)
  {
    if f < n - 1 {
      FoldersComplete(s, u, n - 1, f);
    }
  }

  /** After a soft delete the credential still lists, marked deleted; after
      a restore it lists as live. */
  lemma SoftDeleteShows(s: Store, id: nat, active: Option<Key>)
    requires id in s.credentials
    ensures ViewOf(SoftDelete(s, id), id, active).isDeleted
    ensures !ViewOf(Restore(s, id), id, active).isDeleted
    ensures ViewOf(SoftDelete(s, id), id, active) == ViewOf(s, id, active).(isDeleted := true)
  {
  }

  /** After delete_folder every credential that was filed in a removed
      folder lists under "No Folder", and it is still listed. */
  lemma DeleteFolderShowsNoFolder(s: Store, f: nat, c: nat, active: Option<Key>)
    requires c in s.credentials && RefersInto(s.credentials[c], "folder_id", RemovedFolders(s, f) + {f})
    ensures c in DeleteFolder(s, f).credentials
    ensures ViewOf(DeleteFolder(s, f), c, active).folder == "No Folder"
  {
  }
}
