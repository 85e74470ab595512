/** Private keys: how they are named, found and decrypted. */
module Keys {
  import opened Wrappers
  import opened Tables
  import opened Schema

  datatype KeyAlgorithm = Rsa2048 | Rsa4096 | EcP256 | EcP384

  // The name an import stores.
  function AlgorithmName(a: KeyAlgorithm): string {
    match a
    case Rsa2048 => "Rsa2048"
    case Rsa4096 => "Rsa4096"
    case EcP256 => "EcP256"
    case EcP384 => "EcP384"
  }

  function ParseAlgorithm(s: string): Option<KeyAlgorithm> {
    if s == "Rsa2048" then Some(Rsa2048)
    else if s == "Rsa4096" then Some(Rsa4096)
    else if s == "EcP256" then Some(EcP256)
    else if s == "EcP384" then Some(EcP384)
    else None
  }

  lemma AlgorithmRoundTrip(a: KeyAlgorithm)
    ensures ParseAlgorithm(AlgorithmName(a)) == Some(a) && Names(AlgorithmName(a), a)
  {
    var s := AlgorithmName(a);
    assert |s| == |"EcP256"| ==> s[3] == if a == EcP256 then '2' else '3';
    assert |s| == |"Rsa2048"| ==> s[3] == if a == Rsa2048 then '2' else '4';
  }

  // Decrypting a key's three columns under a passphrase: a library call, absent on failure.
  type Cipher = (KeyBox, Bytes) -> Option<Bytes>

  datatype KeyBox = KeyBox(enc: Bytes, salt: Bytes, nonce: Bytes)

  function Box(k: KeyRow): KeyBox { KeyBox(k.keyEnc, k.keySalt, k.keyNonce) }

  // SELECT ... FROM keys WHERE cert_id = ?
  function FirstKey(keys: seq<KeyRow>, certId: string): Option<KeyRow> {
    if keys == [] then None
    else if keys[0].certId == certId then Some(keys[0])
    else FirstKey(keys[1..], certId)
  }

  lemma {:induction false} FirstKeyFinds(keys: seq<KeyRow>, certId: string)
    ensures FirstKey(keys, certId).Some? <==> Has(KeyCert, keys, certId)
    ensures FirstKey(keys, certId).Some? ==>
      FirstKey(keys, certId).value in keys && FirstKey(keys, certId).value.certId == certId
  {
    if keys != [] {
      FirstKeyFinds(keys[1..], certId);
      HasInParts(KeyCert, keys, certId);
    }
  }

  ghost predicate IsFirstKey(keys: seq<KeyRow>, i: nat, certId: string)
    requires i < |keys|
  {
    keys[i].certId == certId && forall j :: 0 <= j < i ==> keys[j].certId != certId
  }

  lemma {:induction false} FirstKeyAt(keys: seq<KeyRow>, certId: string) returns (i: nat)
    requires FirstKey(keys, certId).Some?
    ensures i < |keys| && IsFirstKey(keys, i, certId) && FirstKey(keys, certId) == Some(keys[i])
  {
    if keys[0].certId == certId {
      i := 0;
    } else {
      i := FirstKeyAt(keys[1..], certId);
      assert forall j :: 0 < j < |keys| ==> keys[1..][j - 1] == keys[j];
      i := i + 1;
    }
  }

  // The names are those of the program's own type.
  predicate Names(s: string, a: KeyAlgorithm) {
    || (a == Rsa2048 && s == "Rsa2048") || (a == Rsa4096 && s == "Rsa4096")
    || (a == EcP256 && s == "EcP256") || (a == EcP384 && s == "EcP384")
  }

  // The first key row of the certificate decrypts to this key and names this algorithm.
  ghost predicate Yields(
    keys: seq<KeyRow>, i: nat, certId: string, decrypt: Cipher, master: Bytes, plain: Bytes, algorithm: KeyAlgorithm)
    requires i < |keys|
  {
    && IsFirstKey(keys, i, certId)
    && decrypt(KeyBox(keys[i].keyEnc, keys[i].keySalt, keys[i].keyNonce), master) == Some(plain)
    && Names(keys[i].algorithm, algorithm)
  }

  // The plaintext key of a certificate and its algorithm.
  function PlainKey(
    keys: seq<KeyRow>, certId: string, decrypt: Cipher, master: Bytes): Result<(Bytes, KeyAlgorithm), StoreError>
  {
    var k := FirstKey(keys, certId);
    if k.None? then Err(NotFound)
    else
      var plain, algorithm := decrypt(Box(k.value), master), ParseAlgorithm(k.value.algorithm);
      if plain.None? || algorithm.None? then Err(Crypto) else Ok((plain.value, algorithm.value))
  }
}
