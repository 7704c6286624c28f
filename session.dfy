/** The rules of MainController (vaultlock/controllers/main_controller.py)
    stated as functions of its fields and of the store: the failed-attempt
    gate and its lockout countdown, the pairing of sort order and sort
    criteria, the PIN wrap of the master password, the items a password
    rotation writes, and the update a credential edit sends to the store.
    Module Controller's methods are proved against these. */
module Session {
  import opened Common
  import opened Crypto
  import opened Tables
  import opened Queries

  // ---- the failed-attempt gate (lines 240-279) ----

  /** The literals 5 of unlockVault and 30 of _start_lockout. */
  const MaxFailedAttempts: nat := 5
  const LockoutSeconds: nat := 30

  /** `_failed_attempts` and `_lockout_remaining`. */
  datatype Gate = Gate(failedAttempts: nat, lockoutRemaining: nat)

  /** What the counters can be between two calls: either no lockout and
      fewer than five failures, or a running countdown with exactly five. */
  predicate GateOk(g: Gate) {
    && g.lockoutRemaining <= LockoutSeconds
    && (g.lockoutRemaining == 0 ==> g.failedAttempts < MaxFailedAttempts)
    && (g.lockoutRemaining > 0 ==> g.failedAttempts == MaxFailedAttempts)
  }

  /** unlockVault's effect on the counters and its answer, given whether a
      user is selected and whether the password verifies. */
  function Attempt(g: Gate, userActive: bool, verified: bool): (r: (bool, Gate))
    ensures r.0 <==> g.lockoutRemaining == 0 && userActive && verified
  {
    if g.lockoutRemaining > 0 || !userActive then (false, g)
    else if verified then (true, g.(failedAttempts := 0))
    else
      var failed := g.failedAttempts + 1;
      (false, Gate(failed, if failed >= MaxFailedAttempts then LockoutSeconds else g.lockoutRemaining))
  }

  /** One timeout of the one-second lockout timer (_update_lockout). */
  function Tick(g: Gate): (r: Gate)
    ensures g.lockoutRemaining == 0 ==> r == g
    ensures g.lockoutRemaining > 0 ==> r.lockoutRemaining == g.lockoutRemaining - 1
  {
    if g.lockoutRemaining == 0 then g
    else if g.lockoutRemaining - 1 == 0 then Gate(0, 0)
    else g.(lockoutRemaining := g.lockoutRemaining - 1)
  }

  /** During a lockout or with no user selected, an attempt is refused and
      changes nothing, whatever the password. */
  lemma BlockedAttemptChangesNothing(g: Gate, userActive: bool, verified: bool)
    requires g.lockoutRemaining > 0 || !userActive
    ensures Attempt(g, userActive, verified) == (false, g)
  {
  }

  /** The gate invariant holds initially and survives attempts and ticks. */
  lemma GateInvariant(g: Gate, userActive: bool, verified: bool)
    ensures GateOk(Gate(0, 0))
    ensures GateOk(g) ==> GateOk(Attempt(g, userActive, verified).1) && GateOk(Tick(g))
  {
  }

  /** `n` wrong passwords in a row for a selected user. */
  function Failures(g: Gate, n: nat): Gate {
    if n == 0 then g else Attempt(Failures(g, n - 1), true, false).1
  }

  /** `n` timer ticks. */
  function Ticks(g: Gate, n: nat): Gate {
    if n == 0 then g else Tick(Ticks(g, n - 1))
  }

  /** From a clean gate, the first four failures only count; the fifth
      starts a thirty-second lockout, and later failures are refused
      without counting. */
  lemma {:induction false} FailuresLockOut(n: nat)
    ensures n < MaxFailedAttempts ==> Failures(Gate(0, 0), n) == Gate(n, 0)
    ensures n >= MaxFailedAttempts ==> Failures(Gate(0, 0), n) == Gate(MaxFailedAttempts, LockoutSeconds)
  {
    if n > 0 {
      FailuresLockOut(n - 1);
    }
  }

  /** A lockout with `r` seconds left is still running after fewer than `r`
      ticks and is over after `r`, with the failure counter back at 0. */
  lemma {:induction false} LockoutExpires(r: nat, k: nat)
    requires 0 < r && k <= r
    ensures Ticks(Gate(MaxFailedAttempts, r), k) ==
              if k < r then Gate(MaxFailedAttempts, r - k) else Gate(0, 0)
  {
    if k > 0 {
      LockoutExpires(r, k - 1);
    }
  }

  // ---- sort order and sort criteria (lines 203-227, 407-409) ----

  /** The `_sort_criteria` after the sortOrder setter assigns `order`. */
  function CriteriaFor(order: string, criteria: string): string {
    if order == "AZ" then "name_asc" else if order == "ZA" then "name_desc" else criteria
  }

  /** The `_sort_order` after the sortCriteria setter assigns `criteria`. */
  function OrderFor(criteria: string, order: string): string {
    if criteria == "name_asc" then "AZ" else if criteria == "name_desc" then "ZA" else order
  }

  predicate SortPaired(order: string, criteria: string) {
    (order == "AZ" && criteria == "name_asc") || (order == "ZA" && criteria == "name_desc")
  }

  /** toggleSort's new order. */
  function Toggled(order: string): (r: string)
    ensures r == "AZ" || r == "ZA"
  {
    if order == "AZ" then "ZA" else "AZ"
  }

  /** Either setter, given one of its two known values, leaves order and
      criteria paired; an unknown value leaves the other field as it was. */
  lemma SettersPair(order: string, criteria: string, value: string)
    ensures value == "AZ" || value == "ZA" ==> SortPaired(value, CriteriaFor(value, criteria))
    ensures value == "name_asc" || value == "name_desc" ==> SortPaired(OrderFor(value, order), value)
    ensures value !in {"AZ", "ZA"} ==> CriteriaFor(value, criteria) == criteria
    ensures value !in {"name_asc", "name_desc"} ==> OrderFor(value, order) == order
  {
  }

  /** Toggling flips between the two orders, and twice is the identity on
      them. */
  lemma ToggleFlips(order: string)
    ensures order == "AZ" <==> Toggled(order) == "ZA"
    ensures order in {"AZ", "ZA"} ==> Toggled(Toggled(order)) == order
  {
  }

  // ---- the PIN wrap (lines 521-565) ----

  const PinCodeKey: string := "pin_code"
  const PinSaltKey: string := "pin_salt"
  const PinWrappedKey: string := "pin_wrapped_mp"

  /** What a decrypt of the wrapped master password may not return for
      verifyPin to go on. */
  predicate UnwrapFailed(text: string) {
    text == "" || text == DecryptionFailed || text == ErrorSentinel
  }

  /** The master password verifyPin hands to unlockVault, or None when it
      answers False first: no PIN or a different one, a wrap or salt that is
      missing, a salt that is no hex (bytes.fromhex raises), a wrap that is
      no encoded token (decrypt then fails), or an unwrap that fails. */
  function PinCandidate(s: Store, u: nat, pin: string): (r: Option<string>)
    ensures r.Some? ==> pin != "" && GetSetting(s, u, PinCodeKey, Str("")) == Str(pin)
    ensures r.Some? ==> !UnwrapFailed(r.value)
  {
    var stored := GetSetting(s, u, PinCodeKey, Str(""));
    if !SettingTruthy(stored) || stored != Str(pin) then None
    else
      var wrapped := GetSetting(s, u, PinWrappedKey, Str(""));
      var saltHex := GetSetting(s, u, PinSaltKey, Str(""));
      if !SettingTruthy(wrapped) || !SettingTruthy(saltHex) then None
      else if !saltHex.Str? || FromHex(saltHex.s).None? then None
      else if !wrapped.B64Token? then None
      else
        var text := DecryptWith(Some(Derive(pin, FromHex(saltHex.s).value)), wrapped.token);
        if UnwrapFailed(text) then None else Some(text)
  }

  /** The three settings setPin writes: the PIN, the hex of a fresh salt,
      and the master password sealed under a key derived from PIN and salt. */
  function PinSet(s: Store, u: nat, pin: string, masterPassword: string, salt: seq<byte>, iv: nat): (r: Store)
    ensures r == s.(settings := r.settings)
  {
    var s1 := SetSetting(s, u, PinCodeKey, Str(pin)).1;
    var s2 := SetSetting(s1, u, PinSaltKey, Str(ToHex(salt))).1;
    SetSetting(s2, u, PinWrappedKey, B64Token(EncryptWith(Some(Derive(pin, salt)), masterPassword, iv))).1
  }

  /** The three settings removePin blanks. */
  function PinRemoved(s: Store, u: nat): (r: Store)
    ensures r == s.(settings := r.settings)
  {
    var s1 := SetSetting(s, u, PinCodeKey, Str("")).1;
    var s2 := SetSetting(s1, u, PinSaltKey, Str("")).1;
    SetSetting(s2, u, PinWrappedKey, Str("")).1
  }

  /** After setPin, the same PIN unwraps the master password it sealed. */
  lemma PinRoundTrip(s: Store, u: nat, pin: string, masterPassword: string, salt: seq<byte>, iv: nat)
    requires u != 0 && u in s.users
    requires pin != "" && salt != [] && !UnwrapFailed(masterPassword)
    ensures PinCandidate(PinSet(s, u, pin, masterPassword, salt, iv), u, pin) == Some(masterPassword)
  {
    var s1 := SetSetting(s, u, PinCodeKey, Str(pin)).1;
    var s2 := SetSetting(s1, u, PinSaltKey, Str(ToHex(salt))).1;
    var t := EncryptWith(Some(Derive(pin, salt)), masterPassword, iv);
    var s3 := PinSet(s, u, pin, masterPassword, salt, iv);
    SetThenGet(s2, u, PinWrappedKey, B64Token(t), u, PinCodeKey, Str(""));
    SetThenGet(s2, u, PinWrappedKey, B64Token(t), u, PinSaltKey, Str(""));
    SetThenGet(s1, u, PinSaltKey, Str(ToHex(salt)), u, PinCodeKey, Str(""));
    SetThenGet(s, u, PinCodeKey, Str(pin), u, PinCodeKey, Str(""));
    assert GetSetting(s3, u, PinCodeKey, Str("")) == Str(pin);
    assert GetSetting(s3, u, PinSaltKey, Str("")) == Str(ToHex(salt));
    assert GetSetting(s3, u, PinWrappedKey, Str("")) == B64Token(t);
    HexRoundTrip(salt);
    RoundTrip(pin, salt, masterPassword, iv);
  }

  /** A different PIN never gets as far as unlocking. */
  lemma WrongPinRejected(s: Store, u: nat, pin: string, other: string, masterPassword: string, salt: seq<byte>, iv: nat)
    requires u != 0 && u in s.users && other != pin
    ensures PinCandidate(PinSet(s, u, pin, masterPassword, salt, iv), u, other) == None
  {
    var s1 := SetSetting(s, u, PinCodeKey, Str(pin)).1;
    var s2 := SetSetting(s1, u, PinSaltKey, Str(ToHex(salt))).1;
    var t := EncryptWith(Some(Derive(pin, salt)), masterPassword, iv);
    SetThenGet(s2, u, PinWrappedKey, B64Token(t), u, PinCodeKey, Str(""));
    SetThenGet(s1, u, PinSaltKey, Str(ToHex(salt)), u, PinCodeKey, Str(""));
    SetThenGet(s, u, PinCodeKey, Str(pin), u, PinCodeKey, Str(""));
  }

  /** After removePin no PIN unlocks. */
  lemma RemovedPinRejected(s: Store, u: nat, pin: string)
    requires u != 0 && u in s.users
    ensures PinCandidate(PinRemoved(s, u), u, pin) == None
  {
    var s1 := SetSetting(s, u, PinCodeKey, Str("")).1;
    var s2 := SetSetting(s1, u, PinSaltKey, Str("")).1;
    SetThenGet(s2, u, PinWrappedKey, Str(""), u, PinCodeKey, Str(""));
    SetThenGet(s1, u, PinSaltKey, Str(""), u, PinCodeKey, Str(""));
    SetThenGet(s, u, PinCodeKey, Str(""), u, PinCodeKey, Str(""));
  }

  /** A master password that is itself a sentinel string cannot come back
      through the PIN: the unwrap is read as a failure. */
  lemma SentinelPasswordDefeatsPin(s: Store, u: nat, pin: string, salt: seq<byte>, iv: nat)
    requires u != 0 && u in s.users && pin != "" && salt != []
    ensures PinCandidate(PinSet(s, u, pin, DecryptionFailed, salt, iv), u, pin) == None
  {
    var s1 := SetSetting(s, u, PinCodeKey, Str(pin)).1;
    var s2 := SetSetting(s1, u, PinSaltKey, Str(ToHex(salt))).1;
    var t := EncryptWith(Some(Derive(pin, salt)), DecryptionFailed, iv);
    var s3 := PinSet(s, u, pin, DecryptionFailed, salt, iv);
    SetThenGet(s2, u, PinWrappedKey, B64Token(t), u, PinCodeKey, Str(""));
    SetThenGet(s2, u, PinWrappedKey, B64Token(t), u, PinSaltKey, Str(""));
    SetThenGet(s1, u, PinSaltKey, Str(ToHex(salt)), u, PinCodeKey, Str(""));
    SetThenGet(s, u, PinCodeKey, Str(pin), u, PinCodeKey, Str(""));
    assert GetSetting(s3, u, PinSaltKey, Str("")) == Str(ToHex(salt));
    assert GetSetting(s3, u, PinWrappedKey, Str("")) == B64Token(t);
    HexRoundTrip(salt);
    RoundTrip(pin, salt, DecryptionFailed, iv);
  }

  // ---- the items a rotation writes (lines 611-642) ----

  /** The shown passwords that make changeMasterPassword give up. */
  predicate RotationSentinel(p: string) {
    p == DecryptionFailed || p == ErrorSentinel || p == LockedSentinel
  }

  /** The (id, password blob, notes blob) list the loop builds, sealing the
      i-th credential's texts with IVs `iv + 2 * i` and `iv + 2 * i + 1`;
      None when it returns False at a sentinel password. */
  function RotationItems(creds: seq<CredentialView>, newKey: Key, iv: nat): (r: Option<seq<(nat, Token, Token)>>)
    ensures r.Some? ==> |r.value| == |creds|
  {
    if creds == [] then Some([])
    else
      var n := |creds| - 1;
      var prev := RotationItems(creds[..n], newKey, iv);
      var c := creds[n];
      if prev.None? || RotationSentinel(c.password) then None
      else Some(prev.value + [(c.id, EncryptWith(Some(newKey), c.password, iv + 2 * n),
                                     EncryptWith(Some(newKey), c.notes, iv + 2 * n + 1))])
  }

  /** The rotation is refused exactly when some shown password is a
      sentinel; the notes are never looked at. */
  lemma {:induction false} RotationRefused(creds: seq<CredentialView>, newKey: Key, iv: nat)
    ensures RotationItems(creds, newKey, iv).None? <==>
              exists i :: 0 <= i < |creds| && RotationSentinel(creds[i].password)
  {
    if creds != [] {
      var n := |creds| - 1;
      RotationRefused(creds[..n], newKey, iv);
      if exists i :: 0 <= i < n && RotationSentinel(creds[..n][i].password) {
        var i :| 0 <= i < n && RotationSentinel(creds[..n][i].password);
        assert creds[i] == creds[..n][i];
      }
      if exists i :: 0 <= i < |creds| && RotationSentinel(creds[i].password) {
        var i :| 0 <= i < |creds| && RotationSentinel(creds[i].password);
        if i < n {
          assert creds[..n][i] == creds[i];
        }
      }
    }
  }

  /** Every item names its credential and reads back, under the new key, as
      the password and notes that were shown. */
  lemma {:induction false} RotationItemsReadBack(creds: seq<CredentialView>, newKey: Key, iv: nat)
    requires RotationItems(creds, newKey, iv).Some?
    ensures var items := RotationItems(creds, newKey, iv).value;
      forall i :: 0 <= i < |creds| ==>
        && items[i].0 == creds[i].id
        && DecryptWith(Some(newKey), items[i].1) == creds[i].password
        && DecryptWith(Some(newKey), items[i].2) == creds[i].notes
  {
    if creds != [] {
      var n := |creds| - 1;
      RotationItemsReadBack(creds[..n], newKey, iv);
      var items := RotationItems(creds, newKey, iv).value;
      var prev := RotationItems(creds[..n], newKey, iv).value;
      assert items == prev + [items[n]];
      forall i | 0 <= i < n
        ensures items[i] == prev[i] && creds[i] == creds[..n][i]
      {
      }
    }
  }

  /** Notes that show "[Decryption Failed]" do not stop the rotation: the
      sentinel text itself is sealed under the new key, and the note is lost. */
  lemma NotesSentinelIsSealed(c: CredentialView, newKey: Key, iv: nat)
    requires !RotationSentinel(c.password) && c.notes == DecryptionFailed
    ensures RotationItems([c], newKey, iv).Some?
    ensures DecryptWith(Some(newKey), RotationItems([c], newKey, iv).value[0].2) == DecryptionFailed
  {
    assert [c][..0] == [];
  }

  /** After a rotation the session re-initialises without a user id, so its
      key comes from the fixed fallback salt, not the salt the credentials
      were sealed with; they read as "[Decryption Failed]" until the next
      unlock, which derives the key from the stored salt again. */
  lemma RotatedSessionCannotRead(u: nat, newPassword: string, newSalt: seq<byte>, p: string, iv: nat)
    requires newSalt != FallbackSalt && newSalt != [] && p != "" && u != 0
    ensures DecryptWith(Some(Derive(newPassword, SaltFor(0, None))),
                        EncryptWith(Some(Derive(newPassword, newSalt)), p, iv)) == DecryptionFailed
    ensures DecryptWith(Some(Derive(newPassword, SaltFor(u, Some(newSalt)))),
                        EncryptWith(Some(Derive(newPassword, newSalt)), p, iv)) == p
  {
    DeriveInjective(newPassword, newSalt, newPassword, FallbackSalt);
    ForeignKeyFails(Derive(newPassword, newSalt), Derive(newPassword, FallbackSalt), p, iv);
    RoundTrip(newPassword, newSalt, p, iv);
  }

  // ---- the update a credential edit sends (lines 567-596) ----

  /** The form keys copied as they are, in the order of the source's list. */
  const EditFields: seq<string> := ["service_name", "username", "email", "website", "favourite"]

  /** The column a form key is written to. */
  function EditColumn(key: string): string {
    if key == "favourite" then "is_favourite" else key
  }

  /** The part of the update built from EditFields[..n]. */
  function FieldUpdates(data: map<string, Value>, n: nat): (r: map<string, Value>)
    requires n <= |EditFields|
    ensures forall c :: c in r <==> exists i :: 0 <= i < n && EditFields[i] in data && EditColumn(EditFields[i]) == c
  {
    if n == 0 then map[]
    else
      var key := EditFields[n - 1];
      var prev := FieldUpdates(data, n - 1);
      if key in data then prev[EditColumn(key) := data[key]] else prev
  }

  /** The id of the first listed folder with the given name, NULL when none
      has it. */
  function FirstNamed(folders: seq<FolderView>, name: Value): (r: Value)
    ensures r == Null <==> forall i :: 0 <= i < |folders| ==> Text(folders[i].name) != name
    ensures r != Null ==> exists i :: 0 <= i < |folders| && Text(folders[i].name) == name && r == Int(folders[i].id)
  {
    if folders == [] then Null
    else if Text(folders[0].name) == name then Int(folders[0].id)
    else
      var r := FirstNamed(folders[1..], name);
      assert forall i :: 0 < i < |folders| ==> folders[i] == folders[1..][i - 1];
      r
  }

  /** The shown passwords the edit form never writes back. */
  predicate PasswordKept(p: string) {
    p == "" || p == "••••••••" || p == LockedSentinel || p == DecryptionFailed
  }

  predicate NotesKept(n: string) {
    n == LockedSentinel || n == DecryptionFailed
  }

  /** encrypt of a form value: b"" for a falsy one, a token for text, and
      None where the non-text value makes str.encode raise. */
  function SealValue(key: Option<Key>, v: Value, iv: nat): (r: Option<Value>)
    ensures v.Text? ==> r == Some(Cipher(EncryptWith(key, v.s, iv)))
  {
    if v.Text? then Some(Cipher(EncryptWith(key, v.s, iv)))
    else if !Truthy(v) then Some(Cipher(EmptyToken))
    else None
  }

  /** Whether the form's password is sealed and written. */
  predicate WritesPassword(data: map<string, Value>, active: Option<Key>) {
    "password" in data && active.Some? && !(data["password"].Text? && PasswordKept(data["password"].s))
  }

  predicate WritesNotes(data: map<string, Value>, active: Option<Key>) {
    "notes" in data && active.Some? && !(data["notes"].Text? && NotesKept(data["notes"].s))
  }

  /** The `updates` dict updateCredential builds, or None when sealing
      raises; `folders` is the user's folder list and `active` the key of
      the active service, if any. */
  function EditUpdates(data: map<string, Value>, folders: seq<FolderView>, active: Option<Key>, iv: nat)
    : (r: Option<map<string, Value>>)
  {
    var fields := FieldUpdates(data, |EditFields|);
    var withFolder := if "folder" in data then fields["folder_id" := FirstNamed(folders, data["folder"])] else fields;
    var password := if WritesPassword(data, active) then SealValue(active, data["password"], iv) else Some(Null);
    var notes := if WritesNotes(data, active) then SealValue(active, data["notes"], iv + 1) else Some(Null);
    if password.None? || notes.None? then None
    else
      var withPassword := if WritesPassword(data, active) then withFolder["password_blob" := password.value] else withFolder;
      Some(if WritesNotes(data, active) then withPassword["notes_blob" := notes.value] else withPassword)
  }

  /** The edit writes only credential columns the store's whitelist admits,
      never the owner or the deleted flag, and leaves a shown password
      that is blank, masked, locked or failed as it is. */
  lemma EditUpdatesAdmitted(data: map<string, Value>, folders: seq<FolderView>, active: Option<Key>, iv: nat)
    requires EditUpdates(data, folders, active, iv).Some?
    ensures var r := EditUpdates(data, folders, active, iv).value;
      && (forall c :: c in r ==> c in CredentialColumns)
      && "user_id" !in r && "is_deleted" !in r
      && ("password_blob" in r <==> WritesPassword(data, active))
      && ("notes_blob" in r <==> WritesNotes(data, active))
  {
    var fields := FieldUpdates(data, |EditFields|);
    forall c | c in fields
      ensures c in CredentialColumns
    {
      var i :| 0 <= i < |EditFields| && EditFields[i] in data && EditColumn(EditFields[i]) == c;
      assert i == 0 || i == 1 || i == 2 || i == 3 || i == 4;
    }
    assert "password_blob" !in fields && "notes_blob" !in fields && "user_id" !in fields && "is_deleted" !in fields by {
      forall i | 0 <= i < |EditFields|
        ensures EditColumn(EditFields[i]) !in {"password_blob", "notes_blob", "user_id", "is_deleted"}
      {
        assert i == 0 || i == 1 || i == 2 || i == 3 || i == 4;
      }
    }
  }

  /** A shown "[Error]" is not among the kept values: editing such a
      credential seals the sentinel text as its new password. */
  lemma ErrorPasswordIsSealed(data: map<string, Value>, folders: seq<FolderView>, key: Key, iv: nat)
    requires "password" in data && data["password"] == Text(ErrorSentinel)
    requires "notes" !in data
    ensures EditUpdates(data, folders, Some(key), iv).Some?
    ensures EditUpdates(data, folders, Some(key), iv).value["password_blob"] == Cipher(EncryptWith(Some(key), ErrorSentinel, iv))
  {
  }
}
