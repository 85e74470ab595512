/** Backup, then restore on a fresh machine. */
module RoundTrip {
  import opened Wrappers
  import opened Seqs
  import opened Tables
  import opened Schema
  import opened Backup
  import opened RestoreRuns
  import opened RestoreExact
  import opened BackupRestore
  import opened Keys
  import opened Routing

  lemma {:induction false} JoinKeysNone(c: CertRow, keys: seq<KeyRow>)
    requires !Has(KeyCert, keys, c.id)
    ensures JoinKeys(c, keys) == []
  {
    if keys != [] {
      HasInParts(KeyCert, keys, c.id);
      JoinKeysNone(c, keys[1..]);
    }
  }

  lemma {:induction false} JoinKeysOne(c: CertRow, keys: seq<KeyRow>)
    requires DistinctBy(KeyCert, keys) && FirstKey(keys, c.id).Some?
    ensures JoinKeys(c, keys) == [PackCert(c, FirstKey(keys, c.id).value)]
  {
    if keys[0].certId == c.id {
      forall k | k in keys[1..] ensures k.certId != c.id {
        var i :| 0 <= i < |keys[1..]| && keys[1..][i] == k;
        assert KeyCert(keys[0]) != KeyCert(keys[i + 1]);
      }
      JoinKeysNone(c, keys[1..]);
    } else {
      JoinKeysOne(c, keys[1..]);
    }
  }

  // With one key each, the join lists every certificate once, in table order.
  lemma {:induction false} JoinCertsOneEach(certs: seq<CertRow>, keys: seq<KeyRow>)
    requires DistinctBy(KeyCert, keys)
    requires forall c :: c in certs ==> FirstKey(keys, c.id).Some?
    ensures |JoinCerts(certs, keys)| == |certs|
    ensures forall i :: 0 <= i < |certs| ==>
      JoinCerts(certs, keys)[i] == PackCert(certs[i], FirstKey(keys, certs[i].id).value)
  {
    if certs != [] {
      assert certs == [certs[0]] + certs[1..];
      assert certs[0] in certs;
      JoinKeysOne(certs[0], keys);
      JoinCertsOneEach(certs[1..], keys);
    }
  }

  lemma CollectedCerts(db: Db)
    requires OneKeyEach(db)
    ensures |JoinCerts(db.certs, db.keys)| == |db.certs|
    ensures forall i :: 0 <= i < |db.certs| ==>
      && FirstKey(db.keys, db.certs[i].id).Some?
      && JoinCerts(db.certs, db.keys)[i] == PackCert(db.certs[i], FirstKey(db.keys, db.certs[i].id).value)
  {
    forall c | c in db.certs ensures FirstKey(db.keys, c.id).Some? {
      FirstKeyFinds(db.keys, c.id);
    }
    JoinCertsOneEach(db.certs, db.keys);
  }

  lemma UnpackPacked(c: CertRow, k: KeyRow, keyId: string)
    ensures Hex.Decode(PackCert(c, k).certDer).Some?
    ensures UnpackCert(PackCert(c, k)) == c
    ensures k.certId == c.id ==> UnpackKey(PackCert(c, k), keyId) == k.(id := keyId)
  {
    Hex.DecodeEncode(c.certDer);
    Hex.DecodeEncode(k.keyEnc);
    Hex.DecodeEncode(k.keySalt);
    Hex.DecodeEncode(k.keyNonce);
  }

  lemma UnpackPackedSshKey(k: SshKeyRow)
    ensures UnpackSshKey(PackSshKey(k)) == k
  {
    Hex.DecodeEncode(k.keyEnc);
    Hex.DecodeEncode(k.keySalt);
    Hex.DecodeEncode(k.keyNonce);
  }

  function ForgetFile(c: CaRow): CaRow { c.(systemFile := None) }

  lemma CollectedSshKeys(db: Db, now: int)
    ensures SshKeyRows(Collect(db, now)) == db.sshKeys
    ensures CaRows(Collect(db, now)) == Map(ForgetFile, db.caCerts)
  {
    forall i | 0 <= i < |db.sshKeys| ensures SshKeyRows(Collect(db, now))[i] == db.sshKeys[i] {
      UnpackPackedSshKey(db.sshKeys[i]);
    }
  }

  // The rows a backup carries are the store's own, but for the CA certificates' system files.
  lemma CollectedRows(db: Db, now: int)
    requires OneKeyEach(db)
    ensures CertRows(Collect(db, now)) == db.certs
    ensures SshKeyRows(Collect(db, now)) == db.sshKeys
    ensures CaRows(Collect(db, now)) == Map(ForgetFile, db.caCerts)
    ensures forall c :: c in Collect(db, now).certs ==> Hex.Decode(c.certDer).Some?
  {
    CollectedCerts(db);
    forall i | 0 <= i < |db.certs|
      ensures CertRows(Collect(db, now))[i] == db.certs[i]
      ensures Hex.Decode(Collect(db, now).certs[i].certDer).Some?
    {
      UnpackPacked(db.certs[i], FirstKey(db.keys, db.certs[i].id).value, "");
    }
    CollectedSshKeys(db, now);
  }

  // The backup's certificate entries, column by column: one for each pair of a certificate and a key of it.
  predicate IsEntryOf(b: BackupCert, c: CertRow, k: KeyRow) {
    && k.certId == c.id
    && b.id == c.id && b.name == c.name && b.fingerprint == c.fingerprint
    && b.subject == c.subject && b.issuer == c.issuer
    && b.notBefore == c.notBefore && b.notAfter == c.notAfter && b.createdAt == c.createdAt
    && b.certDer == Hex.Encode(c.certDer) && b.keyEnc == Hex.Encode(k.keyEnc)
    && b.keySalt == Hex.Encode(k.keySalt) && b.keyNonce == Hex.Encode(k.keyNonce)
    && b.keyAlgorithm == k.algorithm
  }

  lemma {:induction false} JoinKeysEntries(c: CertRow, keys: seq<KeyRow>, b: BackupCert)
    ensures b in JoinKeys(c, keys) <==> exists k :: k in keys && IsEntryOf(b, c, k)
  {
    if keys != [] {
      assert keys == [keys[0]] + keys[1..];
      JoinKeysEntries(c, keys[1..], b);
      assert IsEntryOf(b, c, keys[0]) <==> keys[0].certId == c.id && b == PackCert(c, keys[0]);
    }
  }

  lemma {:induction false} JoinCertsEntries(certs: seq<CertRow>, keys: seq<KeyRow>, b: BackupCert)
    ensures b in JoinCerts(certs, keys) <==> exists c, k :: c in certs && k in keys && IsEntryOf(b, c, k)
  {
    if certs != [] {
      assert certs == [certs[0]] + certs[1..];
      JoinKeysEntries(certs[0], keys, b);
      JoinCertsEntries(certs[1..], keys, b);
    }
  }

  lemma CollectedEntries(db: Db, now: int)
    ensures var p := Collect(db, now);
      && p.version == 1 && p.exportedAt == now
      && (forall b :: b in p.certs <==> exists c, k :: c in db.certs && k in db.keys && IsEntryOf(b, c, k))
      && |p.sshKeys| == |db.sshKeys| && |p.caCerts| == |db.caCerts|
      && (forall i :: 0 <= i < |p.sshKeys| ==>
            var b, k := p.sshKeys[i], db.sshKeys[i];
            && b.id == k.id && b.name == k.name && b.publicKey == k.publicKey && b.algorithm == k.algorithm
            && b.keyEnc == Hex.Encode(k.keyEnc) && b.keySalt == Hex.Encode(k.keySalt)
            && b.keyNonce == Hex.Encode(k.keyNonce) && b.createdAt == k.createdAt)
      && (forall i :: 0 <= i < |p.caCerts| ==>
            var b, c := p.caCerts[i], db.caCerts[i];
            && b.id == c.id && b.name == c.name && b.certPem == c.certPem && b.fingerprint == c.fingerprint
            && b.subject == c.subject && b.notAfter == c.notAfter && b.createdAt == c.createdAt)
      && p.apps == db.apps && p.routes == db.routes && p.sshRoutes == db.sshRoutes
  {
    forall b ensures b in JoinCerts(db.certs, db.keys) <==>
      exists c, k :: c in db.certs && k in db.keys && IsEntryOf(b, c, k)
    {
      JoinCertsEntries(db.certs, db.keys, b);
    }
  }

  function Keyed(keys: seq<KeyRow>): CertRow -> bool { (c: CertRow) => Has(KeyCert, keys, c.id) }

  lemma MapConcat<A, B>(f: A -> B, s: seq<A>, t: seq<A>)
    ensures Map(f, s + t) == Map(f, s) + Map(f, t)
  {
  }

  lemma JoinedRow(c: CertRow, keys: seq<KeyRow>)
    requires DistinctBy(KeyCert, keys)
    ensures Unpacked(JoinKeys(c, keys)) == if Keyed(keys)(c) then [c] else []
    ensures forall b :: b in JoinKeys(c, keys) ==> Hex.Decode(b.certDer).Some?
  {
    FirstKeyFinds(keys, c.id);
    if Keyed(keys)(c) {
      JoinKeysOne(c, keys);
      UnpackPacked(c, FirstKey(keys, c.id).value, "");
    } else {
      JoinKeysNone(c, keys);
    }
  }

  // With at most one key each, the join lists the certificates that have one, in table order.
  lemma {:induction false} JoinCertsKeyed(certs: seq<CertRow>, keys: seq<KeyRow>)
    requires DistinctBy(KeyCert, keys)
    ensures Unpacked(JoinCerts(certs, keys)) == Filter(Keyed(keys), certs)
    ensures forall b :: b in JoinCerts(certs, keys) ==> Hex.Decode(b.certDer).Some?
  {
    if certs != [] {
      JoinCertsKeyed(certs[1..], keys);
      JoinedRow(certs[0], keys);
      MapConcat(UnpackCert, JoinKeys(certs[0], keys), JoinCerts(certs[1..], keys));
    }
  }

  // The backup of any reachable store has distinct rows and closed SSH routes.
  lemma CollectIsCoherent(db: Db, now: int)
    requires SchemaOk(db) && OneKeyAtMost(db)
    ensures Coherent(Collect(db, now))
  {
    JoinCertsKeyed(db.certs, db.keys);
    FilterKeepsDistinct(Keyed(db.keys), CertId, db.certs);
    FilterKeepsDistinct(Keyed(db.keys), CertFingerprint, db.certs);
    CollectedSshKeys(db, now);
    forall i, j | 0 <= i < j < |db.caCerts|
      ensures CaId(ForgetFile(db.caCerts[i])) != CaId(ForgetFile(db.caCerts[j]))
      ensures CaFingerprint(ForgetFile(db.caCerts[i])) != CaFingerprint(ForgetFile(db.caCerts[j]))
    {
      assert CaId(db.caCerts[i]) != CaId(db.caCerts[j]);
      assert CaFingerprint(db.caCerts[i]) != CaFingerprint(db.caCerts[j]);
    }
  }

  lemma KeyedCertArrives(src: Db, now: int, id: string)
    requires OneKeyAtMost(src) && HasCert(src, id)
    ensures CertArrives(EMPTY_DB, Collect(src, now), id) <==> HasKeyFor(src, id)
  {
    JoinCertsKeyed(src.certs, src.keys);
    var rows := CertRows(Collect(src, now));
    assert rows == Filter(Keyed(src.keys), src.certs);
    if HasKeyFor(src, id) {
      var c :| c in src.certs && c.id == id;
      assert Keyed(src.keys)(c) && c in rows;
    }
    if c :| c in rows && CertId(c) == id {
      assert Keyed(src.keys)(c);
    }
  }

  // A certificate that has lost its key is not in the backup, but its routes are. So a backup can be
  // restored into an empty store exactly when every routed certificate still has its key.
  lemma BackupRestorableIff(src: Db, now: int, d: Draws)
    requires SchemaOk(src) && OneKeyAtMost(src) && FreshKeys(EMPTY_DB, d.keyId)
    ensures Restore(EMPTY_DB, Collect(src, now), d).error.None? <==>
      forall r :: r in src.routes ==> HasKeyFor(src, r.certId)
  {
    var p := Collect(src, now);
    CollectIsCoherent(src, now);
    BackupRestoresIff(EMPTY_DB, p, d);
    forall r | r in p.routes
      ensures CertArrives(EMPTY_DB, p, r.certId) <==> HasKeyFor(src, r.certId)
      ensures AppArrives(EMPTY_DB, p, r.appId)
    {
      assert RouteRefsOk(src, r);
      KeyedCertArrives(src, now, r.certId);
    }
    forall r | r in p.sshRoutes ensures AppArrives(EMPTY_DB, p, r.appId) {
      assert SshRouteRefsOk(src, r);
    }
  }

  lemma {:induction false} AllKeysNew(cs: seq<BackupCert>, keyId: nat -> string)
    ensures |NewKeys(EMPTY_DB, cs, keyId)| == |cs|
    ensures forall i :: 0 <= i < |cs| ==> NewKeys(EMPTY_DB, cs, keyId)[i] == UnpackKey(cs[i], keyId(i))
  {
    if cs != [] {
      var n := |cs| - 1;
      AllKeysNew(cs[..n], keyId);
      assert !HasFingerprint(EMPTY_DB, cs[n].fingerprint);
      assert NewKeys(EMPTY_DB, cs, keyId) == NewKeys(EMPTY_DB, cs[..n], keyId) + [UnpackKey(cs[n], keyId(n))];
    }
  }

  lemma MergedFromNothing(p: Payload, d: Draws)
    ensures Merged(EMPTY_DB, p, d) ==
      Db(CertRows(p), NewKeys(EMPTY_DB, p.certs, d.keyId), SshKeyRows(p), CaRows(p), p.apps, p.routes, p.sshRoutes,
         [], [AuditEntry(d)])
  {
    var m := Merged(EMPTY_DB, p, d);
    assert m.certs == CertRows(p) by { AllNewToNothing(CertFingerprint, CertRows(p)); }
    assert m.sshKeys == SshKeyRows(p) by { AllNewToNothing(SshKeyId, SshKeyRows(p)); }
    assert m.caCerts == CaRows(p) by { AllNewToNothing(CaFingerprint, CaRows(p)); }
    assert m.apps == p.apps by { AllNewToNothing(AppExe, p.apps); }
    assert m.routes == p.routes by { AllNewToNothing(RouteId, p.routes); }
    assert m.sshRoutes == p.sshRoutes by { AllNewToNothing(SshRouteId, p.sshRoutes); }
    assert m.keys == NewKeys(EMPTY_DB, p.certs, d.keyId);
    assert m.audit == [AuditEntry(d)];
  }

  // With nothing there before, every entry counts.
  lemma CountsFromNothing(p: Payload)
    ensures MergedCounts(EMPTY_DB, p) ==
      Counts(|p.certs|, |p.sshKeys|, |p.caCerts|, |p.apps|, |p.routes|, |p.sshRoutes|)
  {
    AllNewToNothing(CertFingerprint, CertRows(p));
    AllNewToNothing(SshKeyId, SshKeyRows(p));
    AllNewToNothing(CaFingerprint, CaRows(p));
    AllNewToNothing(AppExe, p.apps);
  }

  // An empty store accepts the backup of any well-formed one.
  lemma EmptyAccepts(src: Db, now: int)
    requires SchemaOk(src) && OneKeyEach(src)
    ensures Accepts(EMPTY_DB, Collect(src, now))
  {
    var p := Collect(src, now);
    CollectedRows(src, now);
    forall r | r in p.routes ensures CertArrives(EMPTY_DB, p, r.certId) && AppArrives(EMPTY_DB, p, r.appId) {
      assert RouteRefsOk(src, r);
    }
    forall r | r in p.sshRoutes ensures AppArrives(EMPTY_DB, p, r.appId) {
      assert SshRouteRefsOk(src, r);
    }
  }

  // b holds a's rows: everything a backup carries, with each key under a new id.
  predicate Rebuilds(src: Db, b: Db, keyId: nat -> string)
    requires OneKeyEach(src)
  {
    && b.certs == src.certs && b.sshKeys == src.sshKeys && b.apps == src.apps
    && b.routes == src.routes && b.sshRoutes == src.sshRoutes
    && b.caCerts == Map(ForgetFile, src.caCerts)
    && |b.keys| == |src.certs|
    && forall i :: 0 <= i < |src.certs| ==>
      && FirstKey(src.keys, src.certs[i].id).Some?
      && b.keys[i] == FirstKey(src.keys, src.certs[i].id).value.(id := keyId(i))
  }

  lemma RebuiltKeyRows(src: Db, now: int, keyId: nat -> string)
    requires OneKeyEach(src)
    ensures var keys := NewKeys(EMPTY_DB, Collect(src, now).certs, keyId);
      && |keys| == |src.certs|
      && forall i :: 0 <= i < |src.certs| ==>
           && FirstKey(src.keys, src.certs[i].id).Some?
           && keys[i] == FirstKey(src.keys, src.certs[i].id).value.(id := keyId(i))
  {
    var p := Collect(src, now);
    AllKeysNew(p.certs, keyId);
    CollectedCerts(src);
    forall i | 0 <= i < |src.certs|
      ensures NewKeys(EMPTY_DB, p.certs, keyId)[i] == FirstKey(src.keys, src.certs[i].id).value.(id := keyId(i))
    {
      FirstKeyFinds(src.keys, src.certs[i].id);
      UnpackPacked(src.certs[i], FirstKey(src.keys, src.certs[i].id).value, keyId(i));
    }
  }

  lemma MergedRebuilds(src: Db, now: int, d: Draws)
    requires OneKeyEach(src)
    ensures Rebuilds(src, Merged(EMPTY_DB, Collect(src, now), d), d.keyId)
    ensures MergedCounts(EMPTY_DB, Collect(src, now)) ==
      Counts(|src.certs|, |src.sshKeys|, |src.caCerts|, |src.apps|, |src.routes|, |src.sshRoutes|)
  {
    CollectedRows(src, now);
    MergedFromNothing(Collect(src, now), d);
    CountsFromNothing(Collect(src, now));
    RebuiltKeyRows(src, now, d.keyId);
    CollectedCerts(src);
  }

  // Restoring a backup into an empty store succeeds and rebuilds every table it carries.
  lemma RestoreRebuilds(src: Db, now: int, d: Draws)
    requires SchemaOk(src) && OneKeyEach(src) && FreshKeys(EMPTY_DB, d.keyId)
    ensures var r := Restore(EMPTY_DB, Collect(src, now), d);
      && r.error.None? && Rebuilds(src, r.db, d.keyId)
      && r.db.integrity == [] && r.db.audit == [AuditRow(d.auditId, "backup_restored", None, d.now)]
      && r.counts == Counts(|src.certs|, |src.sshKeys|, |src.caCerts|, |src.apps|, |src.routes|, |src.sshRoutes|)
  {
    var p := Collect(src, now);
    CollectIsCoherent(src, now);
    EmptyAccepts(src, now);
    BackupRestoresIff(EMPTY_DB, p, d);
    MergedFromNothing(p, d);
    MergedRebuilds(src, now, d);
  }

  // A request is routed on the rebuilt store as it was on the original.
  lemma RestoreKeepsRouting(src: Db, now: int, d: Draws, exe: Option<string>, host: Option<string>, ip: Option<string>)
    requires SchemaOk(src) && OneKeyEach(src) && FreshKeys(EMPTY_DB, d.keyId)
    ensures Resolve(Restore(EMPTY_DB, Collect(src, now), d).db, exe, host, ip) == Resolve(src, exe, host, ip)
  {
    RestoreRebuilds(src, now, d);
  }

  lemma RebuiltKeys(src: Db, b: Db, keyId: nat -> string)
    requires OneKeyEach(src) && SchemaOk(b) && Rebuilds(src, b, keyId)
    ensures OneKeyEach(b)
    ensures forall i :: 0 <= i < |b.certs| ==> FirstKey(b.keys, b.certs[i].id) == Some(b.keys[i])
  {
    forall i | 0 <= i < |src.certs| ensures b.keys[i].certId == b.certs[i].id {
      FirstKeyFinds(src.keys, src.certs[i].id);
    }
    AlignedMeansOneKeyEach(b);
    forall i | 0 <= i < |b.certs| ensures FirstKey(b.keys, b.certs[i].id) == Some(b.keys[i]) {
      FirstKeyFinds(b.keys, b.certs[i].id);
      assert b.keys[i] in b.keys && KeyCert(b.keys[i]) == b.certs[i].id;
      var j :| 0 <= j < |b.keys| && b.keys[j] == FirstKey(b.keys, b.certs[i].id).value;
      assert KeyCert(b.keys[j]) == KeyCert(b.keys[i]);
    }
  }

  lemma UnownedHasNoKey(db: Db, certId: string)
    requires RefsResolve(db) && !HasCert(db, certId)
    ensures FirstKey(db.keys, certId).None?
  {
    FirstKeyFinds(db.keys, certId);
    assert forall k :: k in db.keys ==> HasCert(db, k.certId);
  }

  lemma RebuiltKeyOfIth(src: Db, b: Db, keyId: nat -> string, i: nat)
    requires OneKeyEach(src) && SchemaOk(b) && Rebuilds(src, b, keyId) && i < |src.certs|
    ensures var id := src.certs[i].id;
      && FirstKey(src.keys, id).Some?
      && FirstKey(b.keys, id) == Some(FirstKey(src.keys, id).value.(id := keyId(i)))
  {
    RebuiltKeys(src, b, keyId);
    assert FirstKey(b.keys, b.certs[i].id) == Some(b.keys[i]);
  }

  lemma CertIndex(db: Db, certId: string) returns (i: nat)
    requires HasCert(db, certId)
    ensures i < |db.certs| && db.certs[i].id == certId
  {
    var c :| c in db.certs && c.id == certId;
    i :| 0 <= i < |db.certs| && db.certs[i] == c;
  }

  lemma BothUnowned(a: Db, b: Db, certId: string)
    requires a.certs == b.certs && RefsResolve(a) && RefsResolve(b) && !HasCert(a, certId)
    ensures FirstKey(a.keys, certId).None? && FirstKey(b.keys, certId).None?
  {
    UnownedHasNoKey(a, certId);
    UnownedHasNoKey(b, certId);
  }

  predicate SameBut(a: Option<KeyRow>, b: Option<KeyRow>) {
    (a.Some? <==> b.Some?) && (a.Some? ==> a.value == b.value.(id := a.value.id))
  }

  lemma RebuiltKeyOf(src: Db, b: Db, keyId: nat -> string, certId: string)
    requires OneKeyEach(src) && RefsResolve(src) && SchemaOk(b) && Rebuilds(src, b, keyId)
    ensures SameBut(FirstKey(b.keys, certId), FirstKey(src.keys, certId))
  {
    if HasCert(src, certId) {
      var i := CertIndex(src, certId);
      RebuiltKeyOfIth(src, b, keyId, i);
    } else {
      BothUnowned(src, b, certId);
    }
  }

  // On the rebuilt store every key decrypts, under the same passphrase, to what it was.
  lemma RestoreKeepsPlainKeys(src: Db, now: int, d: Draws, certId: string, decrypt: Cipher, master: Bytes)
    requires SchemaOk(src) && OneKeyEach(src) && FreshKeys(EMPTY_DB, d.keyId)
    ensures PlainKey(Restore(EMPTY_DB, Collect(src, now), d).db.keys, certId, decrypt, master) ==
            PlainKey(src.keys, certId, decrypt, master)
  {
    RestoreRebuilds(src, now, d);
    RunKeepsSchema(Start(EMPTY_DB), Program(Collect(src, now), d));
    RebuiltKeyOf(src, Restore(EMPTY_DB, Collect(src, now), d).db, d.keyId, certId);
  }

  lemma RebuiltBackup(src: Db, b: Db, keyId: nat -> string, now: int)
    requires OneKeyEach(src) && SchemaOk(b) && Rebuilds(src, b, keyId)
    ensures Collect(b, now) == Collect(src, now)
  {
    RebuiltKeys(src, b, keyId);
    CollectedCerts(src);
    CollectedCerts(b);
    assert JoinCerts(b.certs, b.keys) == JoinCerts(src.certs, src.keys);
    assert Map(PackCa, b.caCerts) == Map(PackCa, src.caCerts);
  }

  // Backing up the rebuilt store gives the same payload again.
  lemma RestoreKeepsBackup(src: Db, now: int, d: Draws)
    requires SchemaOk(src) && OneKeyEach(src) && FreshKeys(EMPTY_DB, d.keyId)
    ensures Collect(Restore(EMPTY_DB, Collect(src, now), d).db, now) == Collect(src, now)
  {
    RestoreRebuilds(src, now, d);
    RunKeepsSchema(Start(EMPTY_DB), Program(Collect(src, now), d));
    RebuiltBackup(src, Restore(EMPTY_DB, Collect(src, now), d).db, d.keyId, now);
  }
}
