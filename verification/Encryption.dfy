// Versioned ciphertexts under a ring of keys, and what survives a key rotation. The cipher,
// the key derivations and base64 are ideal functions.
module Encryption {
  import opened Prelude

  type Key = string

  datatype Error = NotConfigured | InvalidFormat | UnknownVersion | InvalidLegacy | Undecryptable | AuthenticationFailed

  // ----- Parts -----

  function Join(parts: seq<string>): string
    requires parts != []
  {
    if |parts| == 1 then parts[0] else parts[0] + [':'] + Join(parts[1..])
  }

  lemma JoinedWithAColon(a: string, parts: seq<string>)
    requires parts != []
    ensures Join([a]) == a && Join([a] + parts) == a + ":" + Join(parts)
  {
  }

  function FirstColon(s: string): (i: nat)
    ensures i <= |s| && ':' !in s[..i] && (i < |s| ==> s[i] == ':')
  {
    if s == [] || s[0] == ':' then 0 else
      assert s[..1 + FirstColon(s[1..])] == [s[0]] + s[1..][..FirstColon(s[1..])];
      1 + FirstColon(s[1..])
  }

  function Split(s: string): (parts: seq<string>)
    ensures parts != []
    decreases |s|
  {
    var i := FirstColon(s);
    if i == |s| then [s] else [s[..i]] + Split(s[i + 1..])
  }

  lemma FirstColonOf(a: string, rest: string)
    requires ':' !in a
    ensures FirstColon(a) == |a| && FirstColon(a + [':'] + rest) == |a|
  {
    var s := a + [':'] + rest;
    assert forall j :: 0 <= j < |a| ==> a[j] in a;
    assert s[|a|] == ':';
    assert forall j :: 0 <= j < |a| ==> s[j] in a;
    assert forall j :: 0 <= j < FirstColon(s) ==> s[j] in s[..FirstColon(s)];
  }

  lemma {:induction false} SplitInvertsJoin(parts: seq<string>)
    requires parts != [] && forall i :: 0 <= i < |parts| ==> ':' !in parts[i]
    ensures Split(Join(parts)) == parts
  {
    var a := parts[0];
    if |parts| == 1 {
      FirstColonOf(a, "");
    } else {
      var rest := Join(parts[1..]);
      FirstColonOf(a, rest);
      var s := a + [':'] + rest;
      assert s[..|a|] == a && s[|a| + 1..] == rest;
      SplitInvertsJoin(parts[1..]);
    }
  }

  // ----- The ideal cipher -----

  // `seal(key, iv, plaintext)` is a tag and a ciphertext; `open` is absent when authentication
  // fails. `rowKey` derives a row's key from a master key and a salt.
  datatype Cipher = Cipher(
    seal: (Key, string, string) -> (string, string),
    open_: (Key, string, string, string) -> Option<string>,
    rowKey: (Key, string) -> Key)

  predicate Base64Char(c: char) {
    'A' <= c <= 'Z' || 'a' <= c <= 'z' || '0' <= c <= '9' || c == '+' || c == '/'
  }

  // One or more base64 characters, then padding.
  predicate IsBase64(s: string) {
    s != "" && Base64Char(s[0]) && (forall i :: 0 <= i < |s| ==> Base64Char(s[i]) || s[i] == '=')
    && forall i :: 0 <= i < |s| - 1 ==> s[i] == '=' ==> s[i + 1] == '='
  }

  // Letters, digits, plus and slash up to `n`, at least one, and equals signs from there on.
  predicate PaddedFrom(s: string, n: nat) {
    0 < n <= |s|
    && (forall i :: n <= i < |s| ==> s[i] == '=')
    && forall i :: 0 <= i < n ==>
         'A' <= s[i] <= 'Z' || 'a' <= s[i] <= 'z' || '0' <= s[i] <= '9' || s[i] == '+' || s[i] == '/'
  }

  lemma IsBase64Exactly(s: string)
    ensures IsBase64(s) <==> exists n :: 0 < n <= |s| && PaddedFrom(s, n)
  {
    if IsBase64(s) {
      var n := PaddingStart(s, 1);
      assert PaddedFrom(s, n);
    }
  }

  lemma {:induction false} PaddingStart(s: string, from: nat) returns (n: nat)
    requires IsBase64(s) && 0 < from <= |s| && forall i :: 0 <= i < from ==> Base64Char(s[i])
    ensures 0 < n <= |s| && (forall i :: 0 <= i < n ==> Base64Char(s[i])) && forall i :: n <= i < |s| ==> s[i] == '='
    decreases |s| - from
  {
    if from == |s| {
      n := from;
    } else if s[from] == '=' {
      n := from;
      PaddingGoesOn(s, from, |s|);
    } else {
      n := PaddingStart(s, from + 1);
    }
  }

  lemma {:induction false} PaddingGoesOn(s: string, from: nat, to: nat)
    requires IsBase64(s) && from < to <= |s| && s[from] == '='
    ensures forall i :: from <= i < to ==> s[i] == '='
  {
    if from + 1 < to {
      PaddingGoesOn(s, from, to - 1);
      assert s[to - 2] == '=' ==> s[to - 2 + 1] == '=';
    }
  }

  ghost predicate Ideal(cipher: Cipher) {
    && (forall k, iv, p ::
          var sealed := cipher.seal(k, iv, p);
          && cipher.open_(k, iv, sealed.0, sealed.1) == Some(p)
          && IsBase64(sealed.0) && (if p == "" then sealed.1 == "" else IsBase64(sealed.1)))
    && (forall k, other, iv, p :: other != k ==>
          cipher.open_(other, iv, cipher.seal(k, iv, p).0, cipher.seal(k, iv, p).1).None?)
  }

  // ----- There is an ideal cipher -----

  // Each character as a number in unary, closed off by a B.
  function Unary(s: string): string {
    if s == [] then [] else seq(s[0] as int, _ => 'A') + ['B'] + Unary(s[1..])
  }

  lemma {:induction false} UnaryIsBase64(s: string)
    ensures forall i :: 0 <= i < |Unary(s)| ==> Unary(s)[i] == 'A' || Unary(s)[i] == 'B'
    ensures Unary(s) == [] <==> s == []
  {
    if s != [] {
      UnaryIsBase64(s[1..]);
    }
  }

  lemma {:induction false} UnaryIsInjective(s: string, t: string)
    requires Unary(s) == Unary(t)
    ensures s == t
  {
    UnaryIsBase64(s);
    UnaryIsBase64(t);
    if s != [] {
      var m, n := s[0] as int, t[0] as int;
      assert Unary(s)[m] == 'B' && Unary(t)[n] == 'B';
      assert forall i :: 0 <= i < m ==> Unary(s)[i] == 'A';
      assert forall i :: 0 <= i < n ==> Unary(t)[i] == 'A';
      assert m == n;
      assert Unary(s)[m + 1..] == Unary(s[1..]) && Unary(t)[n + 1..] == Unary(t[1..]);
      UnaryIsInjective(s[1..], t[1..]);
    }
  }

  // It writes the key into the tag.
  function Sealed(key: Key, plaintext: string): (string, string) {
    (['C'] + Unary(key), Unary(plaintext))
  }

  ghost function Opened(key: Key, tag: string, enc: string): Option<string> {
    if exists p :: Sealed(key, p) == (tag, enc) then
      var p :| Sealed(key, p) == (tag, enc);
      Some(p)
    else
      None
  }

  lemma OpenedIsSealed(key: Key, other: Key, p: string)
    ensures Opened(other, Sealed(key, p).0, Sealed(key, p).1) == if other == key then Some(p) else None
  {
    var sealed := Sealed(key, p);
    forall q | Sealed(other, q) == sealed
      ensures q == p && other == key
    {
      UnaryIsInjective(q, p);
      assert sealed.0[1..] == Unary(key) && Sealed(other, q).0[1..] == Unary(other);
      UnaryIsInjective(other, key);
    }
  }

  lemma IdealCipher() returns (cipher: Cipher)
    ensures Ideal(cipher)
  {
    cipher := Cipher((k, iv, p) => Sealed(k, p), (k, iv, tag, enc) => Opened(k, tag, enc), (k, salt) => k + salt);
    forall k, iv, p
      ensures cipher.open_(k, iv, cipher.seal(k, iv, p).0, cipher.seal(k, iv, p).1) == Some(p)
      ensures IsBase64(cipher.seal(k, iv, p).0)
      ensures if p == "" then cipher.seal(k, iv, p).1 == "" else IsBase64(cipher.seal(k, iv, p).1)
    {
      OpenedIsSealed(k, k, p);
      UnaryIsBase64(k);
      UnaryIsBase64(p);
    }
    forall k, other, iv, p | other != k
      ensures cipher.open_(other, iv, cipher.seal(k, iv, p).0, cipher.seal(k, iv, p).1).None?
    {
      OpenedIsSealed(k, other, p);
    }
  }

  lemma Base64HasNoColon(s: string)
    requires IsBase64(s)
    ensures ':' !in s
  {
  }

  // ----- The key ring -----

  // The key map with its insertion order.
  datatype KeyRing = KeyRing(keys: map<string, Key>, order: seq<string>, current: string)

  ghost predicate RingOk(ring: KeyRing) {
    && (forall v :: v in ring.order <==> v in ring.keys)
    && ring.current in ring.keys && VersionOk(ring.current)
  }

  predicate VersionOk(version: string) {
    version != "" && ':' !in version
  }

  function WithKey(ring: KeyRing, version: string, key: Key): KeyRing {
    ring.(keys := ring.keys[version := key],
          order := if version in ring.keys then ring.order else ring.order + [version])
  }

  function OnlyCurrent(ring: KeyRing): KeyRing {
    KeyRing(map v | v in ring.keys && v == ring.current :: ring.keys[v],
            if ring.current in ring.keys then [ring.current] else [], ring.current)
  }

  // ----- Encrypting and decrypting -----

  predicate StaticSalt(version: string) {
    version == "v1" || version == "dev"
  }

  // `iv` and `rowSalt` are the base64 of what the random generator gives.
  function Encrypt(cipher: Cipher, ring: KeyRing, plaintext: string, iv: string, rowSalt: string): Result<string, Error> {
    if ring.current !in ring.keys then Err(NotConfigured)
    else
      var masterKey := ring.keys[ring.current];
      if StaticSalt(ring.current) then
        var sealed := cipher.seal(masterKey, iv, plaintext);
        Ok(Join([ring.current, iv, sealed.0, sealed.1]))
      else
        var sealed := cipher.seal(cipher.rowKey(masterKey, rowSalt), iv, plaintext);
        Ok(Join([ring.current, rowSalt, iv, sealed.0, sealed.1]))
  }

  function Open(cipher: Cipher, key: Key, iv: string, tag: string, enc: string): Result<string, Error> {
    var plain := cipher.open_(key, iv, tag, enc);
    if plain.Some? then Ok(plain.value) else Err(AuthenticationFailed)
  }

  // The first of the given versions whose key opens the ciphertext, leaving out the current.
  function TryOthers(cipher: Cipher, ring: KeyRing, versions: seq<string>, iv: string, tag: string, enc: string)
      : Option<string> {
    if versions == [] then None
    else if versions[0] != ring.current && versions[0] in ring.keys
            && cipher.open_(ring.keys[versions[0]], iv, tag, enc).Some?
    then cipher.open_(ring.keys[versions[0]], iv, tag, enc)
    else TryOthers(cipher, ring, versions[1..], iv, tag, enc)
  }

  function DecryptLegacy(cipher: Cipher, ring: KeyRing, iv: string, tag: string, enc: string): Result<string, Error> {
    if iv == "" || tag == "" || enc == "" then Err(InvalidLegacy)
    else if ring.current in ring.keys && cipher.open_(ring.keys[ring.current], iv, tag, enc).Some? then
      Ok(cipher.open_(ring.keys[ring.current], iv, tag, enc).value)
    else
      var other := TryOthers(cipher, ring, ring.order, iv, tag, enc);
      if other.Some? then Ok(other.value) else Err(Undecryptable)
  }

  function DecryptParts(cipher: Cipher, ring: KeyRing, parts: seq<string>): Result<string, Error> {
    if |parts| == 5 then
      if parts[0] == "" || parts[1] == "" || parts[2] == "" || parts[3] == "" then Err(InvalidFormat)
      else if parts[0] !in ring.keys then Err(UnknownVersion)
      else Open(cipher, cipher.rowKey(ring.keys[parts[0]], parts[1]), parts[2], parts[3], parts[4])
    else if |parts| == 4 then
      if parts[0] == "" || parts[1] == "" || parts[2] == "" then Err(InvalidFormat)
      else if parts[0] !in ring.keys then Err(UnknownVersion)
      else Open(cipher, ring.keys[parts[0]], parts[1], parts[2], parts[3])
    else if |parts| == 3 then DecryptLegacy(cipher, ring, parts[0], parts[1], parts[2])
    else Err(InvalidFormat)
  }

  function Decrypt(cipher: Cipher, ring: KeyRing, ciphertext: string): Result<string, Error> {
    DecryptParts(cipher, ring, Split(ciphertext))
  }

  predicate IsEncrypted(ring: KeyRing, value: string) {
    var parts := Split(value);
    value != "" &&
    if |parts| == 5 then
      parts[0] in ring.keys && IsBase64(parts[1]) && IsBase64(parts[2]) && IsBase64(parts[3]) && IsBase64(parts[4])
    else if |parts| == 4 then
      parts[0] in ring.keys && IsBase64(parts[1]) && IsBase64(parts[2]) && IsBase64(parts[3])
    else
      |parts| == 3 && IsBase64(parts[0]) && IsBase64(parts[1]) && IsBase64(parts[2])
  }

  predicate NeedsReencryption(ring: KeyRing, ciphertext: string) {
    var parts := Split(ciphertext);
    (|parts| == 5 || |parts| == 4) ==> parts[0] != ring.current
  }

  function Reencrypt(cipher: Cipher, ring: KeyRing, ciphertext: string, iv: string, rowSalt: string): Result<string, Error> {
    if !NeedsReencryption(ring, ciphertext) then Ok(ciphertext)
    else
      match Decrypt(cipher, ring, ciphertext)
      case Err(error) => Err(error)
      case Ok(plaintext) => Encrypt(cipher, ring, plaintext, iv, rowSalt)
  }

  // ----- Round trips -----

  // What encrypting puts together comes apart again, under the current version.
  lemma EncryptedParts(cipher: Cipher, ring: KeyRing, plaintext: string, iv: string, rowSalt: string)
    requires Ideal(cipher) && RingOk(ring) && IsBase64(iv) && IsBase64(rowSalt)
    ensures Encrypt(cipher, ring, plaintext, iv, rowSalt).Ok?
    ensures var parts := Split(Encrypt(cipher, ring, plaintext, iv, rowSalt).value);
            var key := ring.keys[ring.current];
            if ring.current == "v1" || ring.current == "dev" then
              var sealed := cipher.seal(key, iv, plaintext);
              parts == [ring.current, iv, sealed.0, sealed.1]
            else
              var sealed := cipher.seal(cipher.rowKey(key, rowSalt), iv, plaintext);
              parts == [ring.current, rowSalt, iv, sealed.0, sealed.1]
  {
    var key := ring.keys[ring.current];
    Base64HasNoColon(iv);
    Base64HasNoColon(rowSalt);
    SealedHasNoColon(cipher, key, iv, plaintext);
    SealedHasNoColon(cipher, cipher.rowKey(key, rowSalt), iv, plaintext);
    if StaticSalt(ring.current) {
      var sealed := cipher.seal(key, iv, plaintext);
      SplitInvertsJoin([ring.current, iv, sealed.0, sealed.1]);
    } else {
      var sealed := cipher.seal(cipher.rowKey(key, rowSalt), iv, plaintext);
      SplitInvertsJoin([ring.current, rowSalt, iv, sealed.0, sealed.1]);
    }
  }

  lemma SealedHasNoColon(cipher: Cipher, key: Key, iv: string, plaintext: string)
    requires Ideal(cipher)
    ensures ':' !in cipher.seal(key, iv, plaintext).0 && ':' !in cipher.seal(key, iv, plaintext).1
  {
    var sealed := cipher.seal(key, iv, plaintext);
    Base64HasNoColon(sealed.0);
    if plaintext != "" {
      Base64HasNoColon(sealed.1);
    }
  }

  // A value decrypts under every ring, whatever its current version, that still holds the key
  // the value was encrypted under.
  lemma DecryptsUnderLaterRings(cipher: Cipher, ring: KeyRing, later: KeyRing, plaintext: string, iv: string, rowSalt: string)
    requires Ideal(cipher) && RingOk(ring) && IsBase64(iv) && IsBase64(rowSalt)
    requires ring.current in later.keys && later.keys[ring.current] == ring.keys[ring.current]
    ensures Encrypt(cipher, ring, plaintext, iv, rowSalt).Ok?
    ensures Decrypt(cipher, later, Encrypt(cipher, ring, plaintext, iv, rowSalt).value) == Ok(plaintext)
  {
    EncryptedParts(cipher, ring, plaintext, iv, rowSalt);
  }

  lemma {:induction false} TryOthersFinds(cipher: Cipher, ring: KeyRing, versions: seq<string>, key: Key, iv: string, plaintext: string)
    requires Ideal(cipher) && forall v :: v in versions ==> v in ring.keys
    ensures var sealed := cipher.seal(key, iv, plaintext);
            TryOthers(cipher, ring, versions, iv, sealed.0, sealed.1)
            == if exists v :: v in versions && v != ring.current && ring.keys[v] == key then Some(plaintext) else None
  {
    if versions != [] {
      assert versions[0] in versions;
      assert forall v :: v in versions <==> v == versions[0] || v in versions[1..];
      TryOthersFinds(cipher, ring, versions[1..], key, iv, plaintext);
    }
  }

  // An unversioned value decrypts under every ring that holds its key, under whatever version,
  // exactly if its plaintext is not empty: an empty ciphertext part is taken for a missing one.
  lemma LegacyDecryptsExactly(cipher: Cipher, ring: KeyRing, version: string, plaintext: string, iv: string)
    requires Ideal(cipher) && RingOk(ring) && IsBase64(iv) && version in ring.keys
    ensures var sealed := cipher.seal(ring.keys[version], iv, plaintext);
            Decrypt(cipher, ring, Join([iv, sealed.0, sealed.1])) == Ok(plaintext) <==> plaintext != ""
  {
    var key := ring.keys[version];
    var sealed := cipher.seal(key, iv, plaintext);
    Base64HasNoColon(iv);
    SealedHasNoColon(cipher, key, iv, plaintext);
    SplitInvertsJoin([iv, sealed.0, sealed.1]);
    TryOthersFinds(cipher, ring, ring.order, key, iv, plaintext);
    assert ring.keys[ring.current] == key ==> cipher.open_(ring.keys[ring.current], iv, sealed.0, sealed.1) == Some(plaintext);
    assert ring.keys[ring.current] != key ==> cipher.open_(ring.keys[ring.current], iv, sealed.0, sealed.1).None?;
  }

  // A fresh ciphertext is recognised as one exactly if its plaintext is not empty.
  lemma RecognisedExactly(cipher: Cipher, ring: KeyRing, plaintext: string, iv: string, rowSalt: string)
    requires Ideal(cipher) && RingOk(ring) && IsBase64(iv) && IsBase64(rowSalt)
    ensures Encrypt(cipher, ring, plaintext, iv, rowSalt).Ok?
    ensures IsEncrypted(ring, Encrypt(cipher, ring, plaintext, iv, rowSalt).value) <==> plaintext != ""
  {
    EncryptedParts(cipher, ring, plaintext, iv, rowSalt);
    var c := Encrypt(cipher, ring, plaintext, iv, rowSalt).value;
    assert c == "" ==> Split(c) == [""];
  }

  // What is recognised, by the number of parts: five or four of which the first is a version
  // in the ring and the others are base64, or three that are base64, and nothing else.
  lemma RecognisedByItsParts(ring: KeyRing, parts: seq<string>)
    requires parts != [] && forall i :: 0 <= i < |parts| ==> ':' !in parts[i]
    ensures |parts| < 3 || |parts| > 5 ==> !IsEncrypted(ring, Join(parts))
    ensures |parts| == 3 ==>
              (IsEncrypted(ring, Join(parts)) <==> IsBase64(parts[0]) && IsBase64(parts[1]) && IsBase64(parts[2]))
    ensures |parts| == 4 ==>
              (IsEncrypted(ring, Join(parts)) <==>
                 parts[0] in ring.keys && IsBase64(parts[1]) && IsBase64(parts[2]) && IsBase64(parts[3]))
    ensures |parts| == 5 ==>
              (IsEncrypted(ring, Join(parts)) <==>
                 && parts[0] in ring.keys && IsBase64(parts[1]) && IsBase64(parts[2]) && IsBase64(parts[3])
                 && IsBase64(parts[4]))
  {
    SplitInvertsJoin(parts);
    assert Join(parts) == "" ==> Split(Join(parts)) == [""];
  }

  // Every text is parts without colons, joined.
  lemma {:induction false} EveryTextIsJoined(s: string)
    ensures Split(s) != [] && Join(Split(s)) == s && forall i :: 0 <= i < |Split(s)| ==> ':' !in Split(s)[i]
    decreases |s|
  {
    var i := FirstColon(s);
    if i < |s| {
      EveryTextIsJoined(s[i + 1..]);
      assert Split(s)[1..] == Split(s[i + 1..]);
      assert s == s[..i] + [':'] + s[i + 1..];
    }
  }

  // How decrypting fails, by the number of parts: a missing part (only the last may be empty,
  // and not in the legacy format), a version without a key, or another number of parts.
  lemma RejectedByItsParts(cipher: Cipher, ring: KeyRing, parts: seq<string>)
    requires parts != [] && forall i :: 0 <= i < |parts| ==> ':' !in parts[i]
    ensures |parts| < 3 || |parts| > 5 ==> Decrypt(cipher, ring, Join(parts)) == Err(InvalidFormat)
    ensures |parts| == 3 ==>
              (Decrypt(cipher, ring, Join(parts)) == Err(InvalidLegacy) <==> parts[0] == "" || parts[1] == "" || parts[2] == "")
    ensures |parts| == 4 || |parts| == 5 ==>
              var missing := parts[0] == "" || parts[1] == "" || parts[2] == "" || (|parts| == 5 && parts[3] == "");
              && (Decrypt(cipher, ring, Join(parts)) == Err(InvalidFormat) <==> missing)
              && (Decrypt(cipher, ring, Join(parts)) == Err(UnknownVersion) <==> !missing && parts[0] !in ring.keys)
  {
    SplitInvertsJoin(parts);
    RejectedParts(cipher, ring, parts);
  }

  lemma RejectedParts(cipher: Cipher, ring: KeyRing, parts: seq<string>)
    ensures |parts| < 3 || |parts| > 5 ==> DecryptParts(cipher, ring, parts) == Err(InvalidFormat)
    ensures |parts| == 3 ==>
              (DecryptParts(cipher, ring, parts) == Err(InvalidLegacy) <==> parts[0] == "" || parts[1] == "" || parts[2] == "")
    ensures |parts| == 4 || |parts| == 5 ==>
              var missing := parts[0] == "" || parts[1] == "" || parts[2] == "" || (|parts| == 5 && parts[3] == "");
              && (DecryptParts(cipher, ring, parts) == Err(InvalidFormat) <==> missing)
              && (DecryptParts(cipher, ring, parts) == Err(UnknownVersion) <==> !missing && parts[0] !in ring.keys)
  {
  }

  // What needs re-encryption: everything but the versioned formats under the current version.
  lemma NeededByItsParts(ring: KeyRing, parts: seq<string>)
    requires parts != [] && forall i :: 0 <= i < |parts| ==> ':' !in parts[i]
    ensures NeedsReencryption(ring, Join(parts)) <==> !((|parts| == 4 || |parts| == 5) && parts[0] == ring.current)
  {
    SplitInvertsJoin(parts);
  }

  // ----- Rotation -----

  // Re-encrypting any readable value keeps its plaintext, brings it under the current version,
  // and a second time changes nothing.
  lemma ReencryptKeepsPlaintext(cipher: Cipher, ring: KeyRing, ciphertext: string, iv: string, rowSalt: string)
    requires Ideal(cipher) && RingOk(ring) && IsBase64(iv) && IsBase64(rowSalt)
    requires Decrypt(cipher, ring, ciphertext).Ok?
    ensures Reencrypt(cipher, ring, ciphertext, iv, rowSalt).Ok?
    ensures var c := Reencrypt(cipher, ring, ciphertext, iv, rowSalt).value;
            && Decrypt(cipher, ring, c) == Decrypt(cipher, ring, ciphertext)
            && !NeedsReencryption(ring, c)
            && forall iv2, salt2 :: Reencrypt(cipher, ring, c, iv2, salt2) == Ok(c)
  {
    if NeedsReencryption(ring, ciphertext) {
      var plaintext := Decrypt(cipher, ring, ciphertext).value;
      EncryptedParts(cipher, ring, plaintext, iv, rowSalt);
      DecryptsUnderLaterRings(cipher, ring, ring, plaintext, iv, rowSalt);
    }
  }

  // A value that needs no re-encryption is read with the current key alone: dropping all the
  // others does not change what it decrypts to, or that it does not.
  lemma OtherKeysCanBeDropped(cipher: Cipher, ring: KeyRing, ciphertext: string)
    requires !NeedsReencryption(ring, ciphertext)
    ensures Decrypt(cipher, OnlyCurrent(ring), ciphertext) == Decrypt(cipher, ring, ciphertext)
  {
  }

  // A whole rotation over a store of values: re-encrypt each, drop the old keys, lose nothing.
  lemma RotationLosesNothing(cipher: Cipher, ring: KeyRing, values: seq<string>, ivs: seq<string>, salts: seq<string>)
    requires Ideal(cipher) && RingOk(ring) && |ivs| == |salts| == |values|
    requires forall i :: 0 <= i < |values| ==>
               IsBase64(ivs[i]) && IsBase64(salts[i]) && Decrypt(cipher, ring, values[i]).Ok?
    ensures forall i :: 0 <= i < |values| ==>
              var c := Reencrypt(cipher, ring, values[i], ivs[i], salts[i]);
              c.Ok? && Decrypt(cipher, OnlyCurrent(ring), c.value) == Decrypt(cipher, ring, values[i])
  {
    forall i | 0 <= i < |values|
      ensures var c := Reencrypt(cipher, ring, values[i], ivs[i], salts[i]);
              c.Ok? && Decrypt(cipher, OnlyCurrent(ring), c.value) == Decrypt(cipher, ring, values[i])
    {
      ReencryptKeepsPlaintext(cipher, ring, values[i], ivs[i], salts[i]);
      OtherKeysCanBeDropped(cipher, ring, Reencrypt(cipher, ring, values[i], ivs[i], salts[i]).value);
    }
  }

  // ----- The service -----

  datatype Config = Config(key: string, version: string, previousKey: string, previousVersion: string, production: bool)

  datatype PendingKey = PendingKey(version: string, key: string, salt: string)

  function Pending(config: Config): seq<PendingKey> {
    var version := if config.version == "" then "v1" else config.version;
    [PendingKey(version, config.key, "softy-erp-" + version)]
    + if config.previousKey != "" && config.previousVersion != ""
      then [PendingKey(config.previousVersion, config.previousKey, "softy-erp-" + config.previousVersion)] else []
  }

  function Derived(ring: KeyRing, pending: seq<PendingKey>, scrypt: (string, string) -> Key): KeyRing {
    if pending == [] then ring else
      var n := |pending| - 1;
      WithKey(Derived(ring, pending[..n], scrypt), pending[n].version, scrypt(pending[n].key, pending[n].salt))
  }

  class EncryptionService {
    var ring: KeyRing
    var pendingKeys: seq<PendingKey>

    constructor (config: Config, devKey: Key)
      requires config.key == "" ==> !config.production
      ensures config.key == "" ==> ring == KeyRing(map["dev" := devKey], ["dev"], "dev") && pendingKeys == []
      ensures config.key != "" ==>
                ring == KeyRing(map[], [], if config.version == "" then "v1" else config.version) && pendingKeys == Pending(config)
    {
      if config.key == "" {
        ring := KeyRing(map["dev" := devKey], ["dev"], "dev");
        pendingKeys := [];
      } else {
        var version := if config.version == "" then "v1" else config.version;
        ring := KeyRing(map[], [], version);
        var pending := [PendingKey(version, config.key, "softy-erp-" + version)];
        if config.previousKey != "" && config.previousVersion != "" {
          pending := pending +
            [PendingKey(config.previousVersion, config.previousKey, "softy-erp-" + config.previousVersion)];
        }
        pendingKeys := pending;
      }
    }

    // Without a key a production service refuses to start.
    static method Create(config: Config, devKey: Key) returns (r: Result<EncryptionService, Error>)
      ensures r.Err? <==> config.key == "" && config.production
      ensures r.Ok? && config.key == "" ==> r.value.ring == KeyRing(map["dev" := devKey], ["dev"], "dev")
      ensures r.Ok? && config.key != "" ==>
                && r.value.ring == KeyRing(map[], [], if config.version == "" then "v1" else config.version)
                && r.value.pendingKeys == Pending(config)
    {
      if config.key == "" && config.production {
        return Err(NotConfigured);
      }
      var service := new EncryptionService(config, devKey);
      r := Ok(service);
    }

    method OnModuleInit(scrypt: (string, string) -> Key)
      modifies this
      ensures ring == Derived(old(ring), old(pendingKeys), scrypt) && pendingKeys == []
    {
      for i := 0 to |pendingKeys|
        invariant pendingKeys == old(pendingKeys)
        invariant ring == Derived(old(ring), pendingKeys[..i], scrypt)
      {
        var p := pendingKeys[i];
        assert pendingKeys[..i + 1][..i] == pendingKeys[..i];
        ring := WithKey(ring, p.version, scrypt(p.key, p.salt));
      }
      assert pendingKeys[..|pendingKeys|] == pendingKeys;
      pendingKeys := [];
    }

    method DecryptLegacyParts(cipher: Cipher, parts: seq<string>) returns (r: Result<string, Error>)
      requires |parts| == 3 && forall v :: v in ring.order ==> v in ring.keys
      ensures r == DecryptLegacy(cipher, ring, parts[0], parts[1], parts[2])
    {
      var iv, tag, enc := parts[0], parts[1], parts[2];
      if iv == "" || tag == "" || enc == "" {
        return Err(InvalidLegacy);
      }
      if ring.current in ring.keys {
        var plain := Open(cipher, ring.keys[ring.current], iv, tag, enc);
        if plain.Ok? {
          return plain;
        }
      }
      for i := 0 to |ring.order|
        invariant TryOthers(cipher, ring, ring.order, iv, tag, enc) == TryOthers(cipher, ring, ring.order[i..], iv, tag, enc)
      {
        var version := ring.order[i];
        assert ring.order[i..][0] == version && ring.order[i..][1..] == ring.order[i + 1..];
        if version == ring.current {
          continue;
        }
        var plain := Open(cipher, ring.keys[version], iv, tag, enc);
        if plain.Ok? {
          return plain;
        }
      }
      r := Err(Undecryptable);
    }
  }

  predicate HoldsKey(ring: KeyRing, version: string, key: Key) {
    version in ring.keys && ring.keys[version] == key
  }

  // The ring that a configuration ends up with: usable, and holding both keys under their own
  // versions exactly if the versions differ; otherwise the previous key takes the place of
  // the current one.
  lemma RingOfConfig(config: Config, scrypt: (string, string) -> Key)
    requires config.key != "" && (config.version != "" ==> VersionOk(config.version))
    ensures var version := if config.version == "" then "v1" else config.version;
            var ring := Derived(KeyRing(map[], [], version), Pending(config), scrypt);
            && RingOk(ring)
            && (config.previousKey != "" && config.previousVersion != "" ==>
                  && HoldsKey(ring, config.previousVersion, scrypt(config.previousKey, "softy-erp-" + config.previousVersion))
                  && (config.previousVersion != version ==> HoldsKey(ring, version, scrypt(config.key, "softy-erp-" + version))))
            && (config.previousKey == "" || config.previousVersion == "" ==>
                  HoldsKey(ring, version, scrypt(config.key, "softy-erp-" + version)))
  {
    var pending := Pending(config);
    var empty := KeyRing(map[], [], pending[0].version);
    assert pending[..1] == [pending[0]] && pending[..1][..0] == [];
    assert Derived(empty, pending[..1], scrypt) == WithKey(empty, pending[0].version, scrypt(pending[0].key, pending[0].salt));
  }
}
