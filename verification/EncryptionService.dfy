/** Versioned keys with rotation, and the envelopes sealed under them. */
module EncryptionServices {
  import opened Sequences
  import opened Codecs
  import opened Sha256
  import opened Words

  datatype StoredKey = StoredKey(version: nat, keyMaterialHex: string, createdAt: int, active: bool)

  datatype EncryptedData = EncryptedData(keyVersion: nat, nonce: string, ciphertext: string, mac: string)

  datatype Error = NotInitialized | KeyNotFound | InactiveKey | AccessDenied | MacMismatch

  datatype Result<+T> = Ok(value: T) | Err(error: Error)

  /** The two entries of the key store: the keys and the current version. */
  datatype KeyStore = KeyStore(keys: map<nat, StoredKey>, current: Option<nat>)

  /** Versions run from 1 to the current one without a gap, only the current key is
      active, and all key material is well-formed hex. */
  ghost predicate KeyInvariant(s: KeyStore) {
    && (s.current.None? ==> s.keys == map[])
    && (s.current.Some? ==> s.current.value >= 1 && forall v :: v in s.keys <==> 1 <= v <= s.current.value)
    && (forall v :: v in s.keys ==>
          && s.keys[v].version == v
          && (s.keys[v].active <==> s.current == Some(v))
          && Canonical(s.keys[v].keyMaterialHex))
  }

  /** The key material that a store keeps under a version. */
  function Material(s: KeyStore, version: nat): seq<Byte>
    requires version in s.keys
  {
    FromHex(s.keys[version].keyMaterialHex)
  }

  function Initialize(s: KeyStore, random: seq<Byte>, now: int): KeyStore {
    if s.keys != map[] then s else KeyStore(s.keys[1 := StoredKey(1, ToHex(random), now, true)], Some(1))
  }

  function Rotate(s: KeyStore, material: seq<Byte>, now: int): KeyStore
    requires s.current.Some?
  {
    var v := s.current.value;
    var retired := if v in s.keys then s.keys[v := s.keys[v].(active := false)] else s.keys;
    KeyStore(retired[v + 1 := StoredKey(v + 1, ToHex(material), now, true)], Some(v + 1))
  }

  /** An envelope for `text` under a key and a nonce. */
  function Seal(version: nat, key: seq<Byte>, nonce: seq<Byte>, text: seq<Unit>): EncryptedData {
    var data := Utf8Encode(text);
    EncryptedData(version, ToHex(nonce), ToHex(XorCrypt(key, nonce, data)), ToHex(ComputeMac(key, nonce, data)))
  }

  function Encrypt(s: KeyStore, text: seq<Unit>, nonce: seq<Byte>): Result<EncryptedData> {
    if s.current.None? then Err(NotInitialized)
    else if s.current.value !in s.keys then Err(KeyNotFound)
    else if !s.keys[s.current.value].active then Err(InactiveKey)
    else Ok(Seal(s.keys[s.current.value].version, Material(s, s.current.value), nonce, text))
  }

  function Decrypt(s: KeyStore, e: EncryptedData, allowed: bool): Result<seq<Unit>> {
    if !allowed then Err(AccessDenied)
    else if e.keyVersion !in s.keys then Err(KeyNotFound)
    else
      var key, nonce := Material(s, e.keyVersion), FromHex(e.nonce);
      var plaintext := XorCrypt(key, nonce, FromHex(e.ciphertext));
      if ComputeMac(key, nonce, plaintext) != FromHex(e.mac) then Err(MacMismatch)
      else Ok(Utf8Decode(plaintext))
  }

  class EncryptionService {
    var keys: map<nat, StoredKey>
    var current: Option<nat>
    var accessController: string -> bool

    ghost predicate Valid()
      reads this
    {
      KeyInvariant(Store())
    }

    function Store(): KeyStore
      reads this
    {
      KeyStore(keys, current)
    }

    constructor (accessController: string -> bool)
      ensures Valid() && Store() == KeyStore(map[], None) && this.accessController == accessController
    {
      keys, current := map[], None;
      this.accessController := accessController;
    }

    method InitializeStore(random: seq<Byte>, now: int) returns (key: StoredKey)
      requires Valid()
      modifies `keys, `current
      ensures Valid() && Store() == Initialize(old(Store()), random, now)
      ensures current.Some? && current.value in keys && key == keys[current.value]
      ensures old(keys) == map[] ==>
                current == Some(1) && keys == map[1 := key] && key == StoredKey(1, ToHex(random), now, true)
      ensures old(keys) != map[] ==> keys == old(keys) && current == old(current)
    {
      if keys != map[] {
        assert current.Some?;
        return keys[current.value];
      }
      FreshMaterial(random);
      key := StoredKey(1, ToHex(random), now, true);
      keys := keys[1 := key];
      current := Some(1);
    }

    method RotateKey(material: seq<Byte>, now: int) returns (r: Result<nat>)
      requires Valid()
      modifies `keys, `current
      ensures Valid()
      ensures if old(current).None? then r == Err(NotInitialized) && Store() == old(Store())
              else r == Ok(old(current).value + 1) && Store() == Rotate(old(Store()), material, now)
      ensures old(current).Some? ==>
                var v := old(current).value;
                && current == Some(v + 1) && (forall k :: k in keys <==> 1 <= k <= v + 1)
                && keys[v + 1] == StoredKey(v + 1, ToHex(material), now, true)
                && forall k :: 1 <= k <= v ==> keys[k] == old(keys)[k].(active := false)
    {
      hide KeyInvariant, Material, ToHex;
      if current.None? { return Err(NotInitialized); }
      RotateKeeps(Store(), material, now);
      var v := current.value;
      if v in keys {
        keys := keys[v := keys[v].(active := false)];
      }
      keys := keys[v + 1 := StoredKey(v + 1, ToHex(material), now, true)];
      current := Some(v + 1);
      r := Ok(v + 1);
    }

    method EncryptText(text: seq<Unit>, nonce: seq<Byte>) returns (r: Result<EncryptedData>)
      requires Valid()
      ensures r == Encrypt(Store(), text, nonce)
      ensures current.Some? ==> r.Ok? && r.value.keyVersion == current.value
    {
      if current.None? { return Err(NotInitialized); }
      var key := keys[current.value];
      if !key.active { return Err(InactiveKey); }
      var material := FromHexLoop(key.keyMaterialHex);
      var data := Utf8EncodeLoop(text);
      var ciphertext := XorCryptLoop(material[..], nonce, data);
      var mac := ComputeMac(material[..], nonce, data);
      var nonceHex := ToHexLoop(nonce);
      var ciphertextHex := ToHexLoop(ciphertext[..]);
      var macHex := ToHexLoop(mac);
      r := Ok(EncryptedData(key.version, nonceHex, ciphertextHex, macHex));
    }

    method DecryptText(e: EncryptedData, actor: string) returns (r: Result<seq<Unit>>)
      requires Valid()
      ensures r == Decrypt(Store(), e, accessController(actor))
    {
      if !accessController(actor) { return Err(AccessDenied); }
      if e.keyVersion !in keys { return Err(KeyNotFound); }
      var material := FromHexLoop(keys[e.keyVersion].keyMaterialHex);
      var nonce := FromHexLoop(e.nonce);
      var bytes := FromHexLoop(e.ciphertext);
      var plaintext := XorCryptLoop(material[..], nonce[..], bytes[..]);
      var mac := ComputeMac(material[..], nonce[..], plaintext[..]);
      var expected := FromHexLoop(e.mac);
      var equal := CtEqual(mac, expected[..]);
      if !equal { return Err(MacMismatch); }
      var text := Utf8DecodeLoop(plaintext[..]);
      r := Ok(text);
    }

    /** Re-encrypts an envelope. An actor who can open it gets one under the current
        key and the new nonce, which opens to the same text; any other gets the
        refusal of opening it. */
    method ExportEncrypted(e: EncryptedData, actor: string, nonce: seq<Byte>) returns (r: Result<EncryptedData>)
      requires Valid()
      ensures var plain := Decrypt(Store(), e, accessController(actor));
              if plain.Err? then r == Err(plain.error)
              else && r.Ok? && current.Some? && r.value.keyVersion == current.value && r.value.nonce == ToHex(nonce)
                   && Decrypt(Store(), r.value, true) == plain
    {
      hide Seal, Material, Decrypt, ToHex;
      var plain := DecryptText(e, actor);
      if plain.Err? { return Err(plain.error); }
      OpenedHasKey(Store(), e, accessController(actor));
      r := EncryptText(plain.value, nonce);
      var v := current.value;
      SealVersion(v, Material(Store(), v), nonce, plain.value);
      OpensTo(Store(), v, Material(Store(), v), nonce, plain.value);
    }
  }

  lemma OpenedHasKey(s: KeyStore, e: EncryptedData, allowed: bool)
    requires KeyInvariant(s) && Decrypt(s, e, allowed).Ok?
    ensures s.current.Some?
  {
    assert e.keyVersion in s.keys;
  }

  lemma {:induction false} FreshMaterial(bytes: seq<Byte>)
    ensures Canonical(ToHex(bytes)) && FromHex(ToHex(bytes)) == bytes
  {
    HexRoundTrip(bytes);
    HexCanonical(ToHex(bytes));
  }

  /** A rotation keeps the invariant, and every version keeps its material. */
  lemma {:induction false} RotateKeeps(s: KeyStore, material: seq<Byte>, now: int)
    requires KeyInvariant(s) && s.current.Some?
    ensures var t := Rotate(s, material, now);
            && KeyInvariant(t) && t.current == Some(s.current.value + 1)
            && Material(t, t.current.value) == material
            && (forall v :: v in s.keys ==> v in t.keys && Material(t, v) == Material(s, v))
            && (forall v :: v in t.keys <==> 1 <= v <= t.current.value)
            && t.keys[t.current.value] == StoredKey(t.current.value, ToHex(material), now, true)
            && forall v :: 1 <= v < t.current.value ==> v in s.keys && t.keys[v] == s.keys[v].(active := false)
  {
    hide Canonical, ToHex, FromHex;
    FreshMaterial(material);
  }

  /** A sealed envelope opens to its text wherever the version still has its key. */
  lemma OpensTo(s: KeyStore, version: nat, key: seq<Byte>, nonce: seq<Byte>, text: seq<Unit>)
    requires version in s.keys && Material(s, version) == key
    ensures Decrypt(s, Seal(version, key, nonce, text), true) == Ok(text)
  {
    hide ToHex, FromHex, Utf8Encode, Utf8Decode, XorCrypt, ComputeMac;
    var data := Utf8Encode(text);
    HexRoundTrip(nonce);
    HexRoundTrip(XorCrypt(key, nonce, data));
    HexRoundTrip(ComputeMac(key, nonce, data));
    XorCryptInvolution(key, nonce, data);
    Utf8RoundTrip(text);
  }

  /** One rotation after the other, with given material and clock readings. */
  function RotateAll(s: KeyStore, rotations: seq<(seq<Byte>, int)>): (t: KeyStore)
    requires s.current.Some?
    ensures t.current.Some?
  {
    if rotations == [] then s
    else
      var last := |rotations| - 1;
      Rotate(RotateAll(s, rotations[..last]), rotations[last].0, rotations[last].1)
  }

  lemma {:induction false} RotateAllKeeps(s: KeyStore, rotations: seq<(seq<Byte>, int)>)
    requires KeyInvariant(s) && s.current.Some?
    ensures var t := RotateAll(s, rotations);
            && KeyInvariant(t) && t.current == Some(s.current.value + |rotations|)
            && forall v :: v in s.keys ==> v in t.keys && Material(t, v) == Material(s, v)
  {
    if rotations != [] {
      hide KeyInvariant, Material, Rotate;
      var last := |rotations| - 1;
      RotateAllKeeps(s, rotations[..last]);
      RotateKeeps(RotateAll(s, rotations[..last]), rotations[last].0, rotations[last].1);
    }
  }

  /** After any number of rotations an authorized actor decrypts a record to the
      text that was encrypted; an export of it opens to the same text and is under
      the newest key. */
  lemma {:induction false} RoundTripAcrossRotations(
      s: KeyStore, text: seq<Unit>, nonce: seq<Byte>, rotations: seq<(seq<Byte>, int)>, newNonce: seq<Byte>)
    requires KeyInvariant(s) && s.current.Some?
    ensures var e, t := Encrypt(s, text, nonce), RotateAll(s, rotations);
            && e.Ok? && e.value.keyVersion == s.current.value
            && Decrypt(t, e.value, true) == Ok(text)
            && var again := Encrypt(t, text, newNonce);
               && again.Ok? && again.value.keyVersion == s.current.value + |rotations|
               && Decrypt(t, again.value, true) == Ok(text)
  {
    hide Seal, Material, Rotate;
    var t := RotateAll(s, rotations);
    RotateAllKeeps(s, rotations);
    var v, w := s.current.value, t.current.value;
    OpensTo(t, v, Material(s, v), nonce, text);
    OpensTo(t, w, Material(t, w), newNonce, text);
    SealVersion(v, Material(s, v), nonce, text);
    SealVersion(w, Material(t, w), newNonce, text);
  }

  lemma {:induction false} SealVersion(version: nat, key: seq<Byte>, nonce: seq<Byte>, text: seq<Unit>)
    ensures Seal(version, key, nonce, text).keyVersion == version
        && Seal(version, key, nonce, text).nonce == ToHex(nonce)
  {
  }

  /** An envelope opens to a text exactly for an actor with access and a known version,
      when the bytes that its ciphertext stands for decode to it and have, behind key and
      nonce, the hash that is its tag. */
  lemma OpensOnlyWhenAuthentic(s: KeyStore, e: EncryptedData, allowed: bool, text: seq<Unit>)
    ensures Decrypt(s, e, allowed) == Ok(text) <==>
            && allowed && e.keyVersion in s.keys
            && exists plaintext ::
                 var key, nonce := FromHex(s.keys[e.keyVersion].keyMaterialHex), FromHex(e.nonce);
                 && XorCrypt(key, nonce, plaintext) == FromHex(e.ciphertext)
                 && Hash(key + nonce + plaintext) == FromHex(e.mac)
                 && Utf8Decode(plaintext) == text
    ensures Decrypt(s, e, allowed) == Err(AccessDenied) <==> !allowed
    ensures Decrypt(s, e, allowed) == Err(KeyNotFound) <==> allowed && e.keyVersion !in s.keys
    ensures Decrypt(s, e, allowed).Err? && allowed && e.keyVersion in s.keys ==>
              Decrypt(s, e, allowed).error == MacMismatch
  {
    hide ToHex, FromHex, Utf8Decode, XorCrypt, Hash;
    if e.keyVersion in s.keys {
      var key, nonce := FromHex(s.keys[e.keyVersion].keyMaterialHex), FromHex(e.nonce);
      XorCryptInvolution(key, nonce, FromHex(e.ciphertext));
      forall plaintext | XorCrypt(key, nonce, plaintext) == FromHex(e.ciphertext)
        ensures plaintext == XorCrypt(key, nonce, FromHex(e.ciphertext))
      {
        XorCryptInvolution(key, nonce, plaintext);
      }
    }
  }

  /** Two envelopes with one tag, both of which open, under keys and nonces of the same
      lengths: they agree in key, nonce and ciphertext, or their opening shows a collision
      of the hash. */
  lemma TamperingIsDetected(s: KeyStore, e: EncryptedData, f: EncryptedData) returns (a: seq<Byte>, b: seq<Byte>)
    requires Decrypt(s, e, true).Ok? && Decrypt(s, f, true).Ok? && FromHex(e.mac) == FromHex(f.mac)
    requires var k, l := s.keys[e.keyVersion].keyMaterialHex, s.keys[f.keyVersion].keyMaterialHex;
             |FromHex(k)| == |FromHex(l)| && |FromHex(e.nonce)| == |FromHex(f.nonce)|
    ensures || (&& FromHex(s.keys[e.keyVersion].keyMaterialHex) == FromHex(s.keys[f.keyVersion].keyMaterialHex)
                && FromHex(e.nonce) == FromHex(f.nonce) && FromHex(e.ciphertext) == FromHex(f.ciphertext))
            || (a != b && Hash(a) == Hash(b))
  {
    hide FromHex, Utf8Decode, XorCrypt, Hash;
    var k, l := FromHex(s.keys[e.keyVersion].keyMaterialHex), FromHex(s.keys[f.keyVersion].keyMaterialHex);
    var x, y := XorCrypt(k, FromHex(e.nonce), FromHex(e.ciphertext)),
      XorCrypt(l, FromHex(f.nonce), FromHex(f.ciphertext));
    a, b := k + FromHex(e.nonce) + x, l + FromHex(f.nonce) + y;
    ThreeParts(k, FromHex(e.nonce), x, l, FromHex(f.nonce), y);
    if k == l && FromHex(e.nonce) == FromHex(f.nonce) {
      XorCryptTells(k, FromHex(e.nonce), FromHex(e.ciphertext), FromHex(f.ciphertext));
    }
  }

  lemma ThreeParts(k: seq<Byte>, n: seq<Byte>, x: seq<Byte>, l: seq<Byte>, m: seq<Byte>, y: seq<Byte>)
    requires |k| == |l| && |n| == |m|
    ensures k + n + x == l + m + y ==> k == l && n == m && x == y
  {
    var a, b := k + n + x, l + m + y;
    assert a[..|k|] == k && a[|k|..|k| + |n|] == n && a[|k| + |n|..] == x;
    assert b[..|k|] == l && b[|k|..|k| + |n|] == m && b[|k| + |n|..] == y;
  }

  /** An altered ciphertext is refused: if it opens under the same version, nonce and tag
      as another, there are two different byte strings with one hash. */
  lemma {:induction false} AlteredCiphertextIsRefused(s: KeyStore, e: EncryptedData, altered: string)
    requires Decrypt(s, e, true).Ok? && Decrypt(s, e.(ciphertext := altered), true).Ok?
    requires FromHex(altered) != FromHex(e.ciphertext)
    ensures exists a, b :: a != b && Hash(a) == Hash(b)
  {
    hide FromHex, Decrypt, Hash;
    OpenedUnderKey(s, e);
    var a, b := TamperingIsDetected(s, e, e.(ciphertext := altered));
  }

  lemma OpenedUnderKey(s: KeyStore, e: EncryptedData)
    requires Decrypt(s, e, true).Ok?
    ensures e.keyVersion in s.keys
  {
  }
}
