/** The MainController object of vaultlock/controllers/main_controller.py:
    the session state behind the Qt front end. Its attributes are kept
    together in one `Fields` value that the methods replace; the store it
    talks to is a DatabaseManager and the module-global encryption service
    is a ServiceRegistry, both held by reference. Qt signals, the clipboard
    and the activity clock are left out. */
module Controller {
  import opened Common
  import opened Crypto
  import opened Tables
  import opened Migration
  import opened Queries
  import opened Projection
  import opened Listing
  import opened Session
  import opened DbManager

  /** The pseudo-folder load_from_db puts in front of the user's folders. */
  const NoFolderEntry: FolderView := FolderView(0, "No Folder", Text("#4B5563"), Null, Null, 0)

  /** The attributes of a MainController, with the two lockout counters
      grouped as a Gate. */
  datatype Fields = Fields(
    currentFilter: string,
    searchQuery: string,
    selectedId: string,
    filteredCredentials: seq<CredentialView>,
    counts: map<string, nat>,
    isLocked: bool,
    gate: Gate,
    lockoutTimerRunning: bool,
    masterPassword: Option<string>,
    activeUserId: nat,
    sortOrder: string,
    sortCriteria: string,
    folders: seq<FolderView>,
    allCredentials: seq<CredentialView>,
    registrationMode: bool)

  /** update_models: the counts, and the matching items sorted by name. */
  function WithModels(f: Fields): Fields {
    f.(counts := Counts(f.allCredentials, f.folders),
       filteredCredentials := Sort(Filtered(f.allCredentials, f.currentFilter, Lower(f.searchQuery)), f.sortOrder == "ZA"))
  }

  /** load_from_db: with a user selected, reload folders and credentials
      from the store under the active key and recompute the models. */
  function Loaded(f: Fields, s: Store, active: Option<Key>): Fields {
    if f.activeUserId == 0 then f
    else
      WithModels(f.(folders := [NoFolderEntry] + Folders(s, f.activeUserId, s.nextFolderId),
                    allCredentials := Credentials(s, f.activeUserId, active, s.nextCredentialId)))
  }

  /** lockVault: locked, no master password, every cache emptied. */
  function Locked(f: Fields): Fields {
    f.(isLocked := true, masterPassword := None, allCredentials := [], filteredCredentials := [],
       folders := [], counts := map[], selectedId := "")
  }

  /** The fields after unlockVault answers False: only the counters move,
      and the countdown timer starts when they enter a lockout. */
  function Refused(f: Fields, g: Gate): Fields {
    f.(gate := g, lockoutTimerRunning := f.lockoutTimerRunning || (f.gate.lockoutRemaining == 0 && g.lockoutRemaining > 0))
  }

  /** unlockVault gets past its checks, but initialize_encryption raises
      because the user's stored salt is not bytes. */
  predicate KeyDerivationRaises(s: Store, g: Gate, u: nat, password: string) {
    Attempt(g, u != 0, VerifyPassword(s, u, password)).0 && SaltRejected(s, u)
  }

  /** The list update_models shows holds exactly the matching items, each as
      often as among the loaded ones, ordered by name, and with items of
      equal name in their loaded order. */
  lemma ModelsListing(f: Fields, x: CredentialView, k: string)
    ensures var q := Lower(f.searchQuery);
      var shown := WithModels(f).filteredCredentials;
      && (x in shown <==> x in f.allCredentials && Matches(x, f.currentFilter, q))
      && multiset(shown) == multiset(Filtered(f.allCredentials, f.currentFilter, q))
      && Sorted(shown, f.sortOrder == "ZA")
      && WithKey(shown, k) == WithKey(Filtered(f.allCredentials, f.currentFilter, q), k)
  {
    var q := Lower(f.searchQuery);
    var matching := Filtered(f.allCredentials, f.currentFilter, q);
    FilteredMembers(f.allCredentials, f.currentFilter, q, x);
    SortSorted(matching, f.sortOrder == "ZA");
    SortStable(matching, f.sortOrder == "ZA", k);
    assert x in Sort(matching, f.sortOrder == "ZA") <==> x in multiset(Sort(matching, f.sortOrder == "ZA"));
  }

  /** Locking and unlocking again with the same key over an unchanged store
      shows the same listing as before the lock. */
  lemma LockUnlockRestoresListing(f: Fields, s: Store, active: Option<Key>)
    requires f.activeUserId != 0
    ensures var before := Loaded(f, s, active);
      var after := Loaded(Locked(before).(isLocked := false), s, active);
      && after.filteredCredentials == before.filteredCredentials
      && after.counts == before.counts
      && after.folders == before.folders
      && after.allCredentials == before.allCredentials
  {
  }

  /** A row id as SQLite matches it against the INTEGER PRIMARY KEY: an
      integer, or text that is a decimal numeral. */
  function RowIdOf(v: Value): (r: Option<nat>)
    ensures v.Int? && v.i >= 0 ==> r == Some(v.i as nat)
    ensures r.Some? ==> v.Int? || v.Text?
  {
    match v
    case Int(i) => if i >= 0 then Some(i as nat) else None
    case Text(s) => DecimalValue(s)
    case _ => None
  }

  function DigitValue(c: char): (d: nat)
    requires '0' <= c <= '9'
    ensures d < 10
  {
    c as nat - '0' as nat
  }

  /** The value of a non-empty string of decimal digits. */
  function DecimalValue(s: string): (r: Option<nat>)
    ensures r.Some? <==> s != [] && forall i :: 0 <= i < |s| ==> '0' <= s[i] <= '9'
  {
    if s == [] then None
    else if !('0' <= s[|s| - 1] <= '9') then None
    else if |s| == 1 then Some(DigitValue(s[0]))
    else
      var prefix := DecimalValue(s[..|s| - 1]);
      assert forall i :: 0 <= i < |s| - 1 ==> s[..|s| - 1][i] == s[i];
      if prefix.None? then None else Some(prefix.value * 10 + DigitValue(s[|s| - 1]))
  }

  /** Parsing what str() prints gives the number back. */
  lemma {:induction false} DecimalRoundTrip(n: nat)
    ensures DecimalValue(Decimal(n)) == Some(n)
  {
    if n >= 10 {
      var d := Decimal(n);
      DecimalRoundTrip(n / 10);
      assert d[..|d| - 1] == Decimal(n / 10);
    }
  }

  /** With distinct ids, selecting an item by its printed id finds exactly
      that item. */
  lemma SelectById(items: seq<CredentialView>, i: nat)
    requires i < |items|
    requires forall a, b :: 0 <= a < b < |items| ==> items[a].id != items[b].id
    ensures SelectedItem(items, Decimal(items[i].id)) == Some(items[i])
  {
    var r := SelectedItem(items, Decimal(items[i].id));
    var x := r.value;
    DecimalRoundTrip(x.id);
    DecimalRoundTrip(items[i].id);
    var j :| 0 <= j < |items| && items[j] == x;
  }

  /** Where updateCredential leaves the store: None when it returns or
      raises before reloading (no id, a value sealing cannot take, a
      constraint the update breaks), otherwise the store it reloads from. */
  function EditResult(s: Store, u: nat, active: Option<Key>, data: map<string, Value>, iv: nat, now: Value)
    : (r: Option<Store>)
    ensures r.Some? ==> r.value == s.(credentials := r.value.credentials)
  {
    var id := if "id" in data then data["id"] else Null;
    var updates := EditUpdates(data, Folders(s, u, s.nextFolderId), active, iv);
    if !Truthy(id) || updates.None? then None
    else if RowIdOf(id).None? then Some(s)
    else
      var r := Queries.UpdateCredential(s, RowIdOf(id).value, updates.value, now);
      if r.0 == IntegrityError then None else Some(r.1)
  }

  /** An edit from the form changes one row at most, and never its owner or
      its deleted flag. */
  lemma EditKeepsOwnership(s: Store, u: nat, active: Option<Key>, data: map<string, Value>, iv: nat, now: Value, c: nat)
    requires EditResult(s, u, active, data, iv, now).Some? && c in s.credentials
    ensures var r := EditResult(s, u, active, data, iv, now).value;
      && r.credentials.Keys == s.credentials.Keys
      && Col(r.credentials[c], "user_id") == Col(s.credentials[c], "user_id")
      && Col(r.credentials[c], "is_deleted") == Col(s.credentials[c], "is_deleted")
      && (forall other :: other in s.credentials && Some(other) != RowIdOf(data["id"]) ==>
            r.credentials[other] == s.credentials[other])
  {
    var updates := EditUpdates(data, Folders(s, u, s.nextFolderId), active, iv);
    if RowIdOf(data["id"]).Some? {
      var id := RowIdOf(data["id"]).value;
      EditUpdatesAdmitted(data, Folders(s, u, s.nextFolderId), active, iv);
      UpdateCredentialWritesOnlyWhitelisted(s, id, updates.value, now, "user_id");
      UpdateCredentialWritesOnlyWhitelisted(s, id, updates.value, now, "is_deleted");
    }
  }

  /** The rotation changeMasterPassword would write: the shown credentials
      of the user under the active key, sealed under the new key. */
  function RotationPlan(s: Store, u: nat, active: Option<Key>, newPassword: string, newSalt: seq<byte>, iv: nat)
    : Option<seq<(nat, Token, Token)>>
  {
    RotationItems(Credentials(s, u, active, s.nextCredentialId), Derive(newPassword, newSalt), iv)
  }

  /** The write changeMasterPassword commits: nothing when the old
      password does not verify, no service is active, a shown password is
      a sentinel, or the rotation statement `failAt` raises. */
  function RotationWrite(s: Store, u: nat, active: Option<Key>, oldPassword: string, newPassword: string,
                         newSalt: seq<byte>, nonce: nat, iv: nat, now: Value, failAt: Option<nat>): (r: (bool, Store))
    ensures !r.0 ==> r.1 == s
  {
    if !VerifyPassword(s, u, oldPassword) || active.None? then (false, s)
    else
      var plan := RotationPlan(s, u, active, newPassword, newSalt, iv);
      if plan.None? then (false, s)
      else
        var written := Queries.ChangeMasterPassword(s, u, newPassword, newSalt, nonce, plan.value, now, failAt);
        if !written.0 then (false, s) else written
  }

  /** The answer of changeMasterPassword and the store it leaves: the
      write, and after a commit the PIN settings blanked when a PIN was set. */
  function RotationOutcome(s: Store, u: nat, active: Option<Key>, oldPassword: string, newPassword: string,
                           newSalt: seq<byte>, nonce: nat, iv: nat, now: Value, failAt: Option<nat>): (r: (bool, Store))
    ensures !r.0 ==> r.1 == s
  {
    var written := RotationWrite(s, u, active, oldPassword, newPassword, newSalt, nonce, iv, now, failAt);
    if written.0 && SettingTruthy(GetSetting(written.1, u, PinCodeKey, Str(""))) then (true, PinRemoved(written.1, u))
    else written
  }

  /** changeMasterPassword refuses when the old password fails or a shown
      password is a sentinel; after a commit only the new password signs
      in, the stored salt is the new one, and no PIN unlocks. */
  lemma RotationOutcomeRules(s: Store, u: nat, active: Option<Key>, oldPassword: string, newPassword: string,
                             newSalt: seq<byte>, nonce: nat, iv: nat, now: Value, failAt: Option<nat>,
                             other: string, pin: string)
    ensures !VerifyPassword(s, u, oldPassword) ==>
              RotationOutcome(s, u, active, oldPassword, newPassword, newSalt, nonce, iv, now, failAt) == (false, s)
    ensures (exists i :: 0 <= i < |Credentials(s, u, active, s.nextCredentialId)| &&
                         RotationSentinel(Credentials(s, u, active, s.nextCredentialId)[i].password)) ==>
              RotationOutcome(s, u, active, oldPassword, newPassword, newSalt, nonce, iv, now, failAt) == (false, s)
    ensures var r := RotationOutcome(s, u, active, oldPassword, newPassword, newSalt, nonce, iv, now, failAt);
      r.0 ==> && (VerifyPassword(r.1, u, other) <==> other == newPassword)
              && GetVaultSalt(r.1, u) == Some(newSalt)
              && PinCandidate(r.1, u, pin) == None
  {
    RotationRefused(Credentials(s, u, active, s.nextCredentialId), Derive(newPassword, newSalt), iv);
    var r := RotationOutcome(s, u, active, oldPassword, newPassword, newSalt, nonce, iv, now, failAt);
    if r.0 {
      var plan := RotationPlan(s, u, active, newPassword, newSalt, iv).value;
      var written := Queries.ChangeMasterPassword(s, u, newPassword, newSalt, nonce, plan, now, failAt).1;
      RotationReplacesPassword(s, u, newPassword, newSalt, nonce, plan, now, other);
      if SettingTruthy(GetSetting(written, u, PinCodeKey, Str(""))) {
        RemovedPinRejected(written, u, pin);
      }
    }
  }

  class MainController {
    /** The controller's attributes; every method replaces this value. */
    var state: Fields
    /** `self.db` */
    const db: DatabaseManager
    /** The module-global service of encryption_service.py. */
    const registry: ServiceRegistry

    ghost predicate Valid()
      reads this, db, registry, registry.current
    {
      db.Valid() && registry.Valid() && GateOk(state.gate)
    }

    /** A fresh controller starts on "All", sorted A to Z, with no user;
        it is locked exactly when some vault is registered. */
    constructor (db: DatabaseManager, registry: ServiceRegistry)
      requires db.Valid() && registry.Valid()
      ensures Valid() && this.db == db && this.registry == registry
      ensures state == Fields("All", "", "", [], map[], |db.store.users| > 0, Gate(0, 0), false, None, 0,
                              "AZ", "name_asc", [], [], false)
    {
      this.db := db;
      this.registry := registry;
      state := Fields("All", "", "", [], map[], |db.store.users| > 0, Gate(0, 0), false, None, 0,
                      "AZ", "name_asc", [], [], false);
    }

    /** update_models: the counts dict, then the filter loop, then the sort. */
    method UpdateModels()
      modifies this
      ensures state == WithModels(old(state))
    {
      var base := state.allCredentials;
      var folders := state.folders;
      var filter := state.currentFilter;
      var q := Lower(state.searchQuery);
      var newCounts := BaseCounts(base);
      for i := 0 to |folders|
        invariant newCounts == Counts(base, folders[..i])
      {
        var name := folders[i].name;
        newCounts := newCounts[name := Count(base, InFolder(name))];
        assert folders[..i + 1][..i] == folders[..i];
      }
      assert folders[..|folders|] == folders;

      var filtered: seq<CredentialView> := [];
      for i := 0 to |base|
        invariant filtered == Filtered(base[..i], filter, q)
      {
        var item := base[i];
        assert base[..i + 1][..i] == base[..i];
        var matched := true;
        if filter == "Deleted" {
          if !item.isDeleted { matched := false; }
        } else {
          if item.isDeleted { matched := false; }
        }
        if !matched {
          continue;
        }
        if filter == "Favourites" {
          if !item.favourite { matched := false; }
        } else if filter != "All" && filter != "Deleted" {
          if item.folder != filter { matched := false; }
        }
        if matched && q != "" {
          var serviceMatch := HasText(item.serviceName) && Contains(Lower(item.serviceName.value), q);
          var usernameMatch := HasText(item.username) && Contains(Lower(item.username.value), q);
          if !serviceMatch && !usernameMatch { matched := false; }
        }
        if matched {
          filtered := filtered + [item];
        }
      }
      assert base[..|base|] == base;
      state := state.(counts := newCounts, filteredCredentials := Sort(filtered, state.sortOrder == "ZA"));
    }

    /** load_from_db */
    method LoadFromDb()
      requires Valid()
      modifies this
      ensures Valid() && state == Loaded(old(state), db.store, registry.ActiveKey())
    {
      if state.activeUserId == 0 {
        return;
      }
      var dbFolders := db.GetAllFolders(state.activeUserId);
      var dbCredentials := db.GetAllCredentials(state.activeUserId, registry.ActiveKey());
      state := state.(folders := [NoFolderEntry] + dbFolders, allCredentials := dbCredentials);
      UpdateModels();
    }

    /** _start_lockout */
    method StartLockout()
      modifies this
      ensures state == old(state).(gate := Gate(old(state).gate.failedAttempts, LockoutSeconds),
                                   lockoutTimerRunning := true)
    {
      state := state.(gate := state.gate.(lockoutRemaining := LockoutSeconds), lockoutTimerRunning := true);
    }

    /** unlockVault: refused during a lockout or with no user; a password
        that verifies installs its key, unlocks and reloads, unless the
        stored salt is not bytes, when the exception handler answers False
        and counts nothing; a wrong one counts, and the fifth starts the
        lockout. */
    method UnlockVault(password: string) returns (ok: bool)
      requires Valid()
      modifies this, registry, registry.current
      ensures Valid() && db.store == old(db.store)
      ensures KeyDerivationRaises(db.store, old(state).gate, old(state).activeUserId, password) ==>
                !ok && state == old(state) && registry.current == null
                && (old(registry.current) != null ==> Scrubbed(old(registry.current)))
      ensures var a := Attempt(old(state).gate, old(state).activeUserId != 0,
                               VerifyPassword(db.store, old(state).activeUserId, password));
        !KeyDerivationRaises(db.store, old(state).gate, old(state).activeUserId, password) ==>
          ok == a.0 && state.gate == a.1
      ensures ok ==> registry.ActiveKey() == Some(Derive(password, SaltFor(state.activeUserId,
                                                                          GetVaultSalt(db.store, state.activeUserId))))
      ensures ok ==> state == Loaded(old(state).(isLocked := false, masterPassword := Some(password), gate := Gate(0, 0)),
                                     db.store, registry.ActiveKey())
      ensures !ok && !KeyDerivationRaises(db.store, old(state).gate, old(state).activeUserId, password) ==>
                registry.current == old(registry.current)
                && (registry.current != null ==> unchanged(registry.current))
                && state == Refused(old(state), state.gate)
    {
      var u := state.activeUserId;
      if state.gate.lockoutRemaining > 0 || u == 0 {
        return false;
      }
      if VerifyPassword(db.store, u, password) {
        ok := OpenSession(password);
        return;
      }
      state := state.(gate := state.gate.(failedAttempts := state.gate.failedAttempts + 1));
      if state.gate.failedAttempts >= MaxFailedAttempts {
        StartLockout();
      }
      return false;
    }

    /** The try block of unlockVault: install the user's key, keep the
        password, unlock, reset the counter and reload. initialize_encryption
        scrubs the previous service first; when the stored salt is not bytes
        PBKDF2HMAC then raises, and the handler answers False with nothing
        else changed. */
    method OpenSession(password: string) returns (ok: bool)
      requires Valid() && state.gate.lockoutRemaining == 0
      modifies this, registry, registry.current
      ensures Valid() && db.store == old(db.store)
      ensures ok <==> !SaltRejected(db.store, state.activeUserId)
      ensures !ok ==> state == old(state) && registry.current == null
                      && (old(registry.current) != null ==> Scrubbed(old(registry.current)))
      ensures ok ==> registry.ActiveKey() == Some(Derive(password, SaltFor(state.activeUserId,
                                                                          GetVaultSalt(db.store, state.activeUserId))))
      ensures ok ==> state == Loaded(old(state).(isLocked := false, masterPassword := Some(password),
                                                 gate := old(state).gate.(failedAttempts := 0)),
                                     db.store, registry.ActiveKey())
    {
      var u := state.activeUserId;
      if SaltRejected(db.store, u) {
        registry.ClearEncryption();
        return false;
      }
      var service := registry.InitializeEncryption(password, u, GetVaultSalt(db.store, u));
      state := state.(masterPassword := Some(password), isLocked := false, gate := state.gate.(failedAttempts := 0));
      LoadFromDb();
      ok := true;
    }

    /** _update_lockout: one timer tick. */
    method UpdateLockout()
      requires Valid()
      modifies this
      ensures Valid()
      ensures state == old(state).(gate := Tick(old(state).gate),
                                   lockoutTimerRunning := old(state).lockoutTimerRunning && old(state).gate.lockoutRemaining != 1)
    {
      if state.gate.lockoutRemaining > 0 {
        state := state.(gate := state.gate.(lockoutRemaining := state.gate.lockoutRemaining - 1));
        if state.gate.lockoutRemaining == 0 {
          state := state.(lockoutTimerRunning := false, gate := state.gate.(failedAttempts := 0));
        }
      }
    }

    /** lockVault */
    method LockVault()
      requires Valid()
      modifies this, registry, registry.current
      ensures Valid() && registry.current == null
      ensures state == Locked(old(state))
      ensures old(registry.current) != null ==> old(registry.current).fernet.None?
    {
      state := state.(isLocked := true, masterPassword := None);
      registry.ClearEncryption();
      state := state.(allCredentials := [], filteredCredentials := [], folders := [], counts := map[], selectedId := "");
    }

    /** logout: lock, forget the user, leave registration mode. */
    method Logout()
      requires Valid()
      modifies this, registry, registry.current
      ensures Valid() && registry.current == null
      ensures state == Locked(old(state)).(activeUserId := 0, registrationMode := false)
    {
      LockVault();
      state := state.(activeUserId := 0, registrationMode := false);
    }

    /** verifyPin: the PIN must match the stored one; the master password
        it unwraps then goes through unlockVault. */
    method VerifyPin(pin: string) returns (ok: bool)
      requires Valid()
      modifies this, registry, registry.current
      ensures Valid() && db.store == old(db.store)
      ensures PinCandidate(db.store, old(state).activeUserId, pin).None? ==>
                !ok && state == old(state) && registry.current == old(registry.current)
                && (registry.current != null ==> unchanged(registry.current))
      ensures ok ==> var candidate := PinCandidate(db.store, old(state).activeUserId, pin);
        && candidate.Some? && VerifyPassword(db.store, state.activeUserId, candidate.value)
        && !state.isLocked && state.masterPassword == candidate && state.gate.failedAttempts == 0
      ensures var candidate := PinCandidate(db.store, old(state).activeUserId, pin);
        candidate.Some? && KeyDerivationRaises(db.store, old(state).gate, old(state).activeUserId, candidate.value) ==>
          !ok && state == old(state) && registry.current == null
          && (old(registry.current) != null ==> Scrubbed(old(registry.current)))
      ensures var candidate := PinCandidate(db.store, old(state).activeUserId, pin);
        candidate.Some? && !KeyDerivationRaises(db.store, old(state).gate, old(state).activeUserId, candidate.value) ==>
          var a := Attempt(old(state).gate, old(state).activeUserId != 0,
                           VerifyPassword(db.store, old(state).activeUserId, candidate.value));
          && ok == a.0 && state.gate == a.1
          && (ok ==> registry.ActiveKey() == Some(Derive(candidate.value, SaltFor(state.activeUserId,
                                                                                 GetVaultSalt(db.store, state.activeUserId)))))
          && (ok ==> state == Loaded(old(state).(isLocked := false, masterPassword := candidate, gate := Gate(0, 0)),
                                     db.store, registry.ActiveKey()))
          && (!ok ==> registry.current == old(registry.current)
                      && (registry.current != null ==> unchanged(registry.current))
                      && state == Refused(old(state), state.gate))
    {
      var candidate := PinCandidate(db.store, state.activeUserId, pin);
      if candidate.None? {
        return false;
      }
      ok := UnlockVault(candidate.value);
    }

    /** setPin: with an active service and a master password, store the
        PIN, the hex of a fresh salt, and the master password sealed under
        the PIN's key. */
    method SetPin(pin: string, salt: seq<byte>, iv: nat)
      requires Valid()
      modifies db
      ensures Valid()
      ensures var mp := state.masterPassword;
        registry.current != null && mp.Some? && mp.value != "" ==>
          db.store == PinSet(old(db.store), state.activeUserId, pin, mp.value, salt, iv)
      ensures var mp := state.masterPassword;
        !(registry.current != null && mp.Some? && mp.value != "") ==> db.store == old(db.store)
    {
      var service := registry.GetEncryptionService();
      var mp := state.masterPassword;
      if service == null || mp.None? || mp.value == "" {
        return;
      }
      var u := state.activeUserId;
      var status := db.SetSetting(u, PinCodeKey, Str(pin));
      if status == IntegrityError {
        return;
      }
      var pinService := new EncryptionService(pin, salt);
      var wrapped := pinService.Encrypt(mp.value, iv);
      status := db.SetSetting(u, PinSaltKey, Str(ToHex(salt)));
      status := db.SetSetting(u, PinWrappedKey, B64Token(wrapped));
    }

    /** removePin: blank the three PIN settings. */
    method RemovePin()
      requires Valid()
      modifies db
      ensures Valid() && db.store == PinRemoved(old(db.store), state.activeUserId)
    {
      var u := state.activeUserId;
      var status := db.SetSetting(u, PinCodeKey, Str(""));
      if status == IntegrityError {
        return;
      }
      status := db.SetSetting(u, PinSaltKey, Str(""));
      status := db.SetSetting(u, PinWrappedKey, Str(""));
    }

    /** The re-encryption loop of changeMasterPassword: each shown
        credential's password and notes sealed by the new service, or
        None at the first sentinel password. */
    static method ReEncrypt(allCreds: seq<CredentialView>, newPassword: string, newSalt: seq<byte>, iv: nat)
      returns (items: Option<seq<(nat, Token, Token)>>)
      ensures items == RotationItems(allCreds, Derive(newPassword, newSalt), iv)
    {
      var newService := new EncryptionService(newPassword, newSalt);
      var reEncrypted: seq<(nat, Token, Token)> := [];
      for i := 0 to |allCreds|
        invariant newService.fernet == Some(Derive(newPassword, newSalt))
        invariant RotationItems(allCreds[..i], Derive(newPassword, newSalt), iv) == Some(reEncrypted)
      {
        assert allCreds[..i + 1][..i] == allCreds[..i];
        var p, n := allCreds[i].password, allCreds[i].notes;
        if RotationSentinel(p) {
          RotationRefused(allCreds, Derive(newPassword, newSalt), iv);
          return None;
        }
        var sealedPassword := newService.Encrypt(p, iv + 2 * i);
        var sealedNotes := newService.Encrypt(n, iv + 2 * i + 1);
        reEncrypted := reEncrypted + [(allCreds[i].id, sealedPassword, sealedNotes)];
      }
      assert allCreds[..|allCreds|] == allCreds;
      items := Some(reEncrypted);
    }

    /** The checks, the re-encryption and the write of
        changeMasterPassword, up to the commit. */
    method WriteRotation(oldPassword: string, newPassword: string, newSalt: seq<byte>, nonce: nat,
                         iv: nat, now: Value, failAt: Option<nat>) returns (ok: bool)
      requires Valid()
      modifies db
      ensures Valid()
      ensures (ok, db.store) == RotationWrite(old(db.store), state.activeUserId, registry.ActiveKey(), oldPassword,
                                              newPassword, newSalt, nonce, iv, now, failAt)
    {
      var u := state.activeUserId;
      var active := registry.ActiveKey();
      ghost var s0 := db.store;
      ghost var expected := RotationWrite(s0, u, active, oldPassword, newPassword, newSalt, nonce, iv, now, failAt);
      if !VerifyPassword(db.store, u, oldPassword) {
        return false;
      }
      var encryptor := registry.GetEncryptionService();
      if encryptor == null {
        return false;
      }
      var allCreds := db.GetAllCredentials(u, active);
      var reEncrypted := ReEncrypt(allCreds, newPassword, newSalt, iv);
      assert reEncrypted == RotationPlan(s0, u, active, newPassword, newSalt, iv);
      if reEncrypted.None? {
        return false;
      }
      ok := db.ChangeMasterPassword(u, newPassword, newSalt, nonce, reEncrypted.value, now, failAt);
      assert expected == (ok, db.store);
    }

    /** changeMasterPassword, as written: after the commit the service is
        re-initialised with no user id, so its key comes from the fallback
        salt rather than `newSalt`. */
    method ChangeMasterPassword(oldPassword: string, newPassword: string, newSalt: seq<byte>, nonce: nat,
                                iv: nat, now: Value, failAt: Option<nat>) returns (ok: bool)
      requires Valid()
      modifies db, registry, registry.current, this
      ensures Valid()
      ensures (ok, db.store) == RotationOutcome(old(db.store), state.activeUserId, old(registry.ActiveKey()), oldPassword,
                                                newPassword, newSalt, nonce, iv, now, failAt)
      ensures ok ==> registry.ActiveKey() == Some(Derive(newPassword, FallbackSalt))
                     && state == old(state).(masterPassword := Some(newPassword))
      ensures !ok ==> registry.current == old(registry.current)
                      && (registry.current != null ==> unchanged(registry.current)) && state == old(state)
    {
      ghost var s0, u, active := db.store, state.activeUserId, registry.ActiveKey();
      ghost var written := RotationWrite(s0, u, active, oldPassword, newPassword, newSalt, nonce, iv, now, failAt);
      ok := WriteRotation(oldPassword, newPassword, newSalt, nonce, iv, now, failAt);
      if !ok {
        return;
      }
      assert written == (true, db.store);
      CommitRotation(newPassword);
      assert RotationOutcome(s0, u, active, oldPassword, newPassword, newSalt, nonce, iv, now, failAt) == (ok, db.store);
    }

    /** What changeMasterPassword does after the commit: re-initialise the
        service without a user id, keep the new password, drop the PIN. */
    method CommitRotation(newPassword: string)
      requires Valid()
      modifies db, registry, registry.current, this
      ensures Valid()
      ensures registry.ActiveKey() == Some(Derive(newPassword, FallbackSalt))
      ensures state == old(state).(masterPassword := Some(newPassword))
      ensures db.store == if SettingTruthy(GetSetting(old(db.store), state.activeUserId, PinCodeKey, Str("")))
                          then PinRemoved(old(db.store), state.activeUserId) else old(db.store)
    {
      var service := registry.InitializeEncryption(newPassword, 0, None);
      state := state.(masterPassword := Some(newPassword));
      if SettingTruthy(GetSetting(db.store, state.activeUserId, PinCodeKey, Str(""))) {
        RemovePin();
      }
    }

    /** The update updateCredential builds from the form: the renamed
        fields, the id of the first folder of that name, and the password
        and notes sealed under the active key; None when sealing raises. */
    method BuildUpdates(data: map<string, Value>, iv: nat) returns (updates: Option<map<string, Value>>)
      requires Valid()
      ensures updates == EditUpdates(data, Folders(db.store, state.activeUserId, db.store.nextFolderId),
                                     registry.ActiveKey(), iv)
    {
      var fields: map<string, Value> := map[];
      for i := 0 to |EditFields|
        invariant fields == FieldUpdates(data, i)
      {
        var key := EditFields[i];
        if key in data {
          fields := fields[EditColumn(key) := data[key]];
        }
      }
      if "folder" in data {
        var userFolders := db.GetAllFolders(state.activeUserId);
        var fId := Null;
        var j := 0;
        while j < |userFolders|
          invariant j <= |userFolders|
          invariant FirstNamed(userFolders, data["folder"]) == FirstNamed(userFolders[j..], data["folder"])
        {
          if Text(userFolders[j].name) == data["folder"] {
            fId := Int(userFolders[j].id);
            break;
          }
          assert userFolders[j..][1..] == userFolders[j + 1..];
          j := j + 1;
        }
        assert fId == FirstNamed(userFolders, data["folder"]);
        fields := fields["folder_id" := fId];
      }
      var active := registry.ActiveKey();
      if WritesPassword(data, active) {
        var sealed := SealValue(active, data["password"], iv);
        if sealed.None? {
          return None;
        }
        fields := fields["password_blob" := sealed.value];
      }
      if WritesNotes(data, active) {
        var sealed := SealValue(active, data["notes"], iv + 1);
        if sealed.None? {
          return None;
        }
        fields := fields["notes_blob" := sealed.value];
      }
      updates := Some(fields);
    }

    /** updateCredential: build the update from the form, write it, and
        reload. */
    method UpdateCredential(data: map<string, Value>, iv: nat, now: Value)
      requires Valid()
      modifies this, db
      ensures Valid()
      ensures var r := EditResult(old(db.store), state.activeUserId, registry.ActiveKey(), data, iv, now);
        && (r.None? ==> db.store == old(db.store) && state == old(state))
        && (r.Some? ==> db.store == r.value && state == Loaded(old(state), db.store, registry.ActiveKey()))
    {
      var reload := WriteEdit(data, iv, now);
      if reload {
        LoadFromDb();
      }
    }

    /** The part of updateCredential up to the reload: whether it reaches
        the reload, and the store it leaves. */
    method WriteEdit(data: map<string, Value>, iv: nat, now: Value) returns (reload: bool)
      requires Valid()
      modifies db
      ensures Valid()
      ensures var r := EditResult(old(db.store), state.activeUserId, registry.ActiveKey(), data, iv, now);
        reload == r.Some? && db.store == if reload then r.value else old(db.store)
    {
      ghost var s0, u, active := db.store, state.activeUserId, registry.ActiveKey();
      var credId := if "id" in data then data["id"] else Null;
      if !Truthy(credId) {
        return false;
      }
      var updates := BuildUpdates(data, iv);
      if updates.None? {
        return false;
      }
      var id := RowIdOf(credId);
      if id.Some? {
        var status := db.UpdateCredential(id.value, updates.value, now);
        if status == IntegrityError {
          return false;
        }
      }
      reload := true;
    }

    /** moveFolder: a positive parent id is written as given, anything else
        as NULL, with no check for a cycle. */
    method MoveFolder(folderId: nat, newParentId: int, now: Value)
      requires Valid()
      modifies this, db
      ensures Valid()
      ensures var r := Queries.UpdateFolder(old(db.store), folderId,
                                            map["parent_id" := if newParentId > 0 then Int(newParentId) else Null], now);
        && db.store == r.1
        && (r.0 == Done ==> state == Loaded(old(state), db.store, registry.ActiveKey()))
        && (r.0 == IntegrityError ==> state == old(state))
    {
      var parent := if newParentId > 0 then Int(newParentId) else Null;
      var status := db.UpdateFolder(folderId, map["parent_id" := parent], now);
      if status == IntegrityError {
        return;
      }
      LoadFromDb();
    }

    /** getFolderTree: the root ids in order, and for every shown folder
        the ids attached under it, in order. */
    method GetFolderTree() returns (tree: seq<nat>, children: map<nat, seq<nat>>)
      ensures tree == Roots(state.folders, state.folders)
      ensures forall p :: p in children <==> ShownId(state.folders, p)
      ensures forall p :: p in children ==> children[p] == Children(state.folders, state.folders, p)
    {
      var folders := state.folders;
      var ids := set i | 0 <= i < |folders| && Shown(folders[i]) :: folders[i].id;
      children := map p | p in ids :: [];
      tree := [];
      for i := 0 to |folders|
        invariant forall p :: p in children <==> ShownId(folders, p)
        invariant tree == Roots(folders, folders[..i])
        invariant forall p :: p in children ==> children[p] == Children(folders, folders[..i], p)
      {
        var f := folders[i];
        assert folders[..i + 1][..i] == folders[..i];
        if !Shown(f) {
          continue;
        }
        var pId := f.parentId;
        if Truthy(pId) && pId != Int(f.id) {
          if pId.Int? && pId.i >= 0 && pId.i as nat in children {
            children := children[pId.i as nat := children[pId.i as nat] + [f.id]];
          } else {
            tree := tree + [f.id];
          }
        } else {
          tree := tree + [f.id];
        }
      }
      assert folders[..|folders|] == folders;
    }

    /** The sortOrder setter. */
    method SetSortOrder(value: string)
      modifies this
      ensures old(state).sortOrder == value ==> state == old(state)
      ensures old(state).sortOrder != value ==>
                state == WithModels(old(state).(sortOrder := value, sortCriteria := CriteriaFor(value, old(state).sortCriteria)))
    {
      if state.sortOrder != value {
        state := state.(sortOrder := value);
        if value == "AZ" {
          state := state.(sortCriteria := "name_asc");
        } else if value == "ZA" {
          state := state.(sortCriteria := "name_desc");
        }
        UpdateModels();
      }
    }

    /** The sortCriteria setter. */
    method SetSortCriteria(value: string)
      modifies this
      ensures old(state).sortCriteria == value ==> state == old(state)
      ensures old(state).sortCriteria != value ==>
                state == WithModels(old(state).(sortCriteria := value, sortOrder := OrderFor(value, old(state).sortOrder)))
    {
      if state.sortCriteria != value {
        state := state.(sortCriteria := value);
        if value == "name_asc" {
          state := state.(sortOrder := "AZ");
        } else if value == "name_desc" {
          state := state.(sortOrder := "ZA");
        }
        UpdateModels();
      }
    }

    /** toggleSort */
    method ToggleSort()
      modifies this
      ensures state == WithModels(old(state).(sortOrder := Toggled(old(state).sortOrder),
                                              sortCriteria := CriteriaFor(Toggled(old(state).sortOrder), old(state).sortCriteria)))
    {
      SetSortOrder(if state.sortOrder == "AZ" then "ZA" else "AZ");
    }
  }
}
