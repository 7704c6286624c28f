/** The encryption-service wrapper of vaultlock/services/encryption_service.py.

    PBKDF2-HMAC-SHA256 (section 5.2 of RFC 8018), Fernet and Argon2id are
    modelled symbolically: a derived key is the record of the inputs it was
    derived from, a Fernet token records the key that sealed it and what it
    holds, and an Argon2id hash records the password it was made from. So
    keys derived from different (password, salt) pairs differ, a token
    opens only under the key that sealed it, and the Fernet round trip
    holds by construction. What is modelled in full is the wrapper's own
    logic: the empty short-circuits, the sentinel strings that replace
    library failures, and the single active service. */
module Crypto {
  import opened Common

  const Pbkdf2Iterations: nat := 600000
  const KeyLength: nat := 32

  /** The fixed salt used when no user id or no stored salt is available. */
  const FallbackSalt: seq<byte> :=
    [0x82, 0x1c, 0x94, 0xf4, 0xbc, 0xda, 0x3d, 0xb6, 0xb7, 0xa5, 0xbf, 0x91, 0x0d, 0x98, 0x70, 0xd6]

  /** In-band failure markers returned as ordinary strings. */
  const DecryptionFailed: string := "[Decryption Failed]"
  const ErrorSentinel: string := "[Error]"
  const LockedSentinel: string := "[Locked]"

  /** The output of PBKDF2-HMAC-SHA256 on these inputs. */
  datatype Key = Pbkdf2Key(password: string, salt: seq<byte>, iterations: nat, length: nat)

  function Derive(password: string, salt: seq<byte>): (k: Key)
    ensures k.iterations == Pbkdf2Iterations && k.length == KeyLength
  {
    Pbkdf2Key(password, salt, Pbkdf2Iterations, KeyLength)
  }

  /** What a Fernet token carries: UTF-8 text, or bytes that do not decode. */
  datatype Payload = Utf8(text: string) | NonUtf8(raw: seq<byte>)

  /** A stored blob: the empty byte string, a Fernet token sealed under `key`
      with the random IV and timestamp abstracted to `iv`, or bytes that are
      not a well-formed Fernet token. */
  datatype Token =
    | EmptyToken
    | FernetToken(key: Key, payload: Payload, iv: nat)
    | Malformed(raw: seq<byte>)

  /** Python's `not token`: the blob is the empty byte string. */
  predicate IsEmptyToken(t: Token) {
    t.EmptyToken? || (t.Malformed? && t.raw == [])
  }

  /** EncryptionService.encrypt under the service's current Fernet key. */
  function EncryptWith(fernet: Option<Key>, data: string, iv: nat): (t: Token)
    ensures IsEmptyToken(t) <==> data == "" || fernet.None?
    ensures !IsEmptyToken(t) ==> t.FernetToken? && t.key == fernet.value
  {
    if data == "" || fernet.None? then EmptyToken
    else FernetToken(fernet.value, Utf8(data), iv)
  }

  /** EncryptionService.decrypt under the service's current Fernet key:
      never fails, failures come back as sentinel strings. */
  function DecryptWith(fernet: Option<Key>, token: Token): (s: string)
    ensures IsEmptyToken(token) || fernet.None? ==> s == ""
    ensures !IsEmptyToken(token) && fernet.Some? && !(token.FernetToken? && token.key == fernet.value) ==>
              s == DecryptionFailed
  {
    if IsEmptyToken(token) || fernet.None? then ""
    else match token
      case FernetToken(k, payload, _) =>
        if k != fernet.value then DecryptionFailed  // InvalidToken: MAC check fails
        else (match payload
              case Utf8(text) => text
              case NonUtf8(_) => ErrorSentinel)     // UnicodeDecodeError
      case _ => DecryptionFailed                      // InvalidToken: malformed
  }

  lemma DeriveInjective(p1: string, s1: seq<byte>, p2: string, s2: seq<byte>)
    ensures Derive(p1, s1) == Derive(p2, s2) <==> p1 == p2 && s1 == s2
  {
  }

  /** decrypt(encrypt(s)) == s under one (password, salt) service, for every s. */
  lemma RoundTrip(password: string, salt: seq<byte>, s: string, iv: nat)
    ensures DecryptWith(Some(Derive(password, salt)), EncryptWith(Some(Derive(password, salt)), s, iv)) == s
  {
  }

  /** A token sealed under another (password, salt) never opens. */
  lemma ForeignKeyFails(k1: Key, k2: Key, s: string, iv: nat)
    requires k1 != k2 && s != ""
    ensures DecryptWith(Some(k2), EncryptWith(Some(k1), s, iv)) == DecryptionFailed
  {
  }

  /** A cleared service returns empty bytes and empty text for every input. */
  lemma ClearedServiceShortCircuits(s: string, iv: nat, t: Token)
    ensures EncryptWith(None, s, iv) == EmptyToken
    ensures DecryptWith(None, t) == ""
  {
  }

  /** The sentinels are in-band: a stored plaintext equal to a sentinel
      decrypts to exactly what a failed decryption returns. */
  lemma SentinelIsIndistinguishable(k: Key, other: Key, iv: nat)
    requires k != other
    ensures DecryptWith(Some(k), EncryptWith(Some(k), DecryptionFailed, iv))
         == DecryptWith(Some(k), EncryptWith(Some(other), "secret", iv))
  {
  }

  /** The salt initialize_encryption derives the session key from: the
      user's stored salt, or the fallback when there is no user id or the
      stored salt is missing or empty. */
  function SaltFor(userId: nat, storedSalt: Option<seq<byte>>): (salt: seq<byte>)
    ensures userId != 0 && storedSalt.Some? && storedSalt.value != [] ==> salt == storedSalt.value
    ensures userId == 0 || storedSalt.None? || storedSalt.value == [] ==> salt == FallbackSalt
  {
    if userId != 0 && storedSalt.Some? && storedSalt.value != [] then storedSalt.value else FallbackSalt
  }

  // ---- hex text of the PIN salt (bytes.hex / bytes.fromhex) ----

  function HexDigit(n: nat): (c: char)
    requires n < 16
  {
    if n < 10 then ('0' as int + n) as char else ('a' as int + n - 10) as char
  }

  function HexValue(c: char): (v: Option<nat>)
    ensures v.Some? ==> v.value < 16
  {
    if '0' <= c <= '9' then Some(c as int - '0' as int)
    else if 'a' <= c <= 'f' then Some(c as int - 'a' as int + 10)
    else if 'A' <= c <= 'F' then Some(c as int - 'A' as int + 10)
    else None
  }

  /** bytes.hex(): two lower-case hex digits per byte. */
  function ToHex(b: seq<byte>): (r: string)
    ensures |r| == 2 * |b|
  {
    if b == [] then "" else [HexDigit(b[0] / 16), HexDigit(b[0] % 16)] + ToHex(b[1..])
  }

  /** bytes.fromhex() on text without whitespace; None where Python raises. */
  function FromHex(s: string): (r: Option<seq<byte>>)
    ensures r.Some? ==> 2 * |r.value| == |s|
    decreases |s|
  {
    if s == "" then Some([])
    else if |s| == 1 then None
    else
      match (HexValue(s[0]), HexValue(s[1]), FromHex(s[2..]))
      case (Some(hi), Some(lo), Some(rest)) => Some([hi * 16 + lo] + rest)
      case _ => None
  }

  lemma {:induction false} HexRoundTrip(b: seq<byte>)
    ensures FromHex(ToHex(b)) == Some(b)
  {
    if b != [] {
      HexRoundTrip(b[1..]);
      var h := ToHex(b);
      assert h[2..] == ToHex(b[1..]);
      assert HexValue(h[0]) == Some(b[0] / 16);
      assert HexValue(h[1]) == Some(b[0] % 16);
      assert [b[0]] + b[1..] == b;
    }
  }

  // ---- Argon2id password hashes (argon2.PasswordHasher) ----

  /** An Argon2id hash of `password` with the random salt abstracted to `nonce`. */
  datatype PasswordHash = Argon2id(password: string, nonce: nat)

  predicate HashMatches(h: PasswordHash, password: string) {
    h.password == password
  }

  // ---- the service object and the module-global active service ----

  /** What clear() leaves: no key, no Fernet and no salt. */
  ghost predicate Scrubbed(service: EncryptionService)
    reads service
  {
    service.fernet.None? && service.key.None? && service.salt.None?
  }

  class EncryptionService {
    /** `_key`: reset by clear(), never given a value by the source. */
    var key: Option<Key>
    /** `_fernet`: the Fernet instance, identified by its key. */
    var fernet: Option<Key>
    /** `_salt` */
    var salt: Option<seq<byte>>

    constructor (masterPassword: string, salt: seq<byte>)
      ensures this.salt == Some(salt) && key.None?
      ensures fernet == Some(Derive(masterPassword, salt))
    {
      this.key := None;
      this.salt := Some(salt);
      this.fernet := Some(Derive(masterPassword, salt));
    }

    method Encrypt(data: string, iv: nat) returns (t: Token)
      ensures t == EncryptWith(fernet, data, iv)
    {
      if data == "" || fernet.None? {
        return EmptyToken;
      }
      t := FernetToken(fernet.value, Utf8(data), iv);
    }

    method Decrypt(token: Token) returns (s: string)
      ensures s == DecryptWith(fernet, token)
    {
      if IsEmptyToken(token) || fernet.None? {
        return "";
      }
      s := DecryptWith(fernet, token);
    }

    /** Scrub the key material; afterwards encrypt and decrypt short-circuit. */
    method Clear()
      modifies this
      ensures key.None? && fernet.None? && salt.None?
    {
      key, fernet, salt := None, None, None;
    }
  }

  /** The module-global `_current_service` of encryption_service.py. */
  class ServiceRegistry {
    var current: EncryptionService?

    /** The active service, when there is one, still holds its key. */
    ghost predicate Valid()
      reads this, current
    {
      current != null ==> current.fernet.Some?
    }

    constructor ()
      ensures current == null && Valid()
    {
      current := null;
    }

    /** The key of the active service, or None when no service is installed. */
    function ActiveKey(): (k: Option<Key>)
      reads this, current
      requires Valid()
      ensures k.None? <==> current == null
    {
      if current == null then None else current.fernet
    }

    /** initialize_encryption: `storedSalt` is what the store holds as the
        user's vault salt (the lookup is only used when `userId` is set). */
    method InitializeEncryption(masterPassword: string, userId: nat, storedSalt: Option<seq<byte>>)
      returns (service: EncryptionService)
      requires Valid()
      modifies this, current
      ensures Valid() && fresh(service) && current == service
      ensures service.fernet == Some(Derive(masterPassword, SaltFor(userId, storedSalt)))
      ensures service.salt == Some(SaltFor(userId, storedSalt))
      ensures old(current) != null ==> old(current).fernet.None? && old(current).key.None? && old(current).salt.None?
    {
      if current != null {
        current.Clear();
      }
      var salt := if userId != 0 && storedSalt.Some? then storedSalt.value else [];
      if salt == [] {
        salt := FallbackSalt;
      }
      service := new EncryptionService(masterPassword, salt);
      current := service;
    }

    /** clear_encryption: scrub the active service and forget it. */
    method ClearEncryption()
      requires Valid()
      modifies this, current
      ensures Valid() && current == null
      ensures old(current) != null ==> old(current).fernet.None? && old(current).key.None? && old(current).salt.None?
    {
      if current != null {
        current.Clear();
        current := null;
      }
    }

    /** get_encryption_service */
    method GetEncryptionService() returns (s: EncryptionService?)
      ensures s == current
    {
      s := current;
    }
  }
}
