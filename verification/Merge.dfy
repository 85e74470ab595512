/** Restoring backups of several stores into one: the result is their union. */
module Merge {
  import opened Seqs
  import opened Tables
  import opened Schema
  import opened Backup
  import opened RestoreRuns
  import opened RestoreExact
  import opened BackupRestore
  import opened Keys
  import opened RoundTrip

  // What a store holds, as a backup sees it: key ids and system files are not part of it.
  datatype Contents = Contents(
    certs: set<BackupCert>, sshKeys: set<BackupSshKey>, caCerts: set<BackupCa>,
    apps: set<AppRow>, routes: set<RouteRow>, sshRoutes: set<SshRouteRow>)

  function Elements<T(==)>(s: seq<T>): set<T> { set x | x in s }

  function Holds(db: Db): Contents {
    var p := Collect(db, 0);
    Contents(Elements(p.certs), Elements(p.sshKeys), Elements(p.caCerts),
             Elements(p.apps), Elements(p.routes), Elements(p.sshRoutes))
  }

  function Union(a: Contents, b: Contents): Contents {
    Contents(a.certs + b.certs, a.sshKeys + b.sshKeys, a.caCerts + b.caCerts,
             a.apps + b.apps, a.routes + b.routes, a.sshRoutes + b.sshRoutes)
  }

  // Rows that share a primary key or a UNIQUE value are the same row.
  predicate Agree(a: Contents, b: Contents) {
    && (forall x, y :: x in a.certs && y in b.certs && (x.id == y.id || x.fingerprint == y.fingerprint) ==> x == y)
    && (forall x, y :: x in a.sshKeys && y in b.sshKeys && x.id == y.id ==> x == y)
    && (forall x, y :: x in a.caCerts && y in b.caCerts && (x.id == y.id || x.fingerprint == y.fingerprint) ==> x == y)
    && (forall x, y :: x in a.apps && y in b.apps && (x.id == y.id || x.exePath == y.exePath) ==> x == y)
    && (forall x, y :: x in a.routes && y in b.routes && x.id == y.id ==> x == y)
    && (forall x, y :: x in a.sshRoutes && y in b.sshRoutes && x.id == y.id ==> x == y)
  }

  predicate StoreOk(db: Db) { SchemaOk(db) && OneKeyEach(db) }

  // ---- the joined certificates ----------------------------------------------------

  lemma {:induction false} JoinKeysMembers(c: CertRow, keys: seq<KeyRow>)
    ensures forall b :: b in JoinKeys(c, keys) <==> exists k :: k in keys && k.certId == c.id && b == PackCert(c, k)
  {
    if keys != [] {
      assert keys == [keys[0]] + keys[1..];
      JoinKeysMembers(c, keys[1..]);
    }
  }

  lemma {:induction false} JoinCertsMembers(certs: seq<CertRow>, keys: seq<KeyRow>)
    ensures forall b :: b in JoinCerts(certs, keys) <==>
      exists c, k :: c in certs && k in keys && k.certId == c.id && b == PackCert(c, k)
  {
    if certs != [] {
      assert certs == [certs[0]] + certs[1..];
      JoinKeysMembers(certs[0], keys);
      JoinCertsMembers(certs[1..], keys);
    }
  }

  // Each added key row comes from a certificate with a new fingerprint, and each such certificate adds one.
  lemma {:induction false} NewKeyOwner(t: Db, cs: seq<BackupCert>, keyId: nat -> string, k: KeyRow) returns (i: nat)
    requires k in NewKeys(t, cs, keyId)
    ensures i < |cs| && !HasFingerprint(t, cs[i].fingerprint) && k == UnpackKey(cs[i], keyId(i))
  {
    var n := |cs| - 1;
    if k in NewKeys(t, cs[..n], keyId) {
      i := NewKeyOwner(t, cs[..n], keyId, k);
    } else {
      i := n;
    }
  }

  lemma {:induction false} NewCertHasKey(t: Db, cs: seq<BackupCert>, keyId: nat -> string, i: nat)
    requires i < |cs| && !HasFingerprint(t, cs[i].fingerprint)
    ensures UnpackKey(cs[i], keyId(i)) in NewKeys(t, cs, keyId)
  {
    var n := |cs| - 1;
    if i < n {
      NewCertHasKey(t, cs[..n], keyId, i);
    }
  }

  lemma Repacked(c: CertRow, k: KeyRow, keyId: string)
    requires k.certId == c.id
    ensures PackCert(UnpackCert(PackCert(c, k)), UnpackKey(PackCert(c, k), keyId)) == PackCert(c, k)
  {
    UnpackPacked(c, k, keyId);
  }

  // ---- one restore -----------------------------------------------------------------

  lemma HeldCert(t: Db, c: CertRow) returns (b: BackupCert)
    requires OneKeyEach(t) && c in t.certs
    ensures b in Holds(t).certs && b.id == c.id && b.fingerprint == c.fingerprint && UnpackCert(b) == c
  {
    CollectedCerts(t);
    var i :| 0 <= i < |t.certs| && t.certs[i] == c;
    b := JoinCerts(t.certs, t.keys)[i];
    UnpackPacked(c, FirstKey(t.keys, c.id).value, "");
  }

  lemma HeldCertOf(t: Db, b: BackupCert) returns (c: CertRow, k: KeyRow)
    requires b in Holds(t).certs
    ensures c in t.certs && k in t.keys && k.certId == c.id && b == PackCert(c, k)
  {
    JoinCertsMembers(t.certs, t.keys);
    c, k :| c in t.certs && k in t.keys && k.certId == c.id && b == PackCert(c, k);
  }

  // Stores that agree never stand in each other's way.
  lemma AgreeingStoresFit(t: Db, src: Db, now: int)
    requires StoreOk(t) && StoreOk(src) && Agree(Holds(t), Holds(src))
    ensures EntriesFit(t, Collect(src, now))
  {
    var p := Collect(src, now);
    CollectedRows(src, now);
    forall c | c in CertRows(p) && HasCert(t, c.id) ensures HasFingerprint(t, c.fingerprint) {
      var c' :| c' in t.certs && c'.id == c.id;
      var x := HeldCert(t, c');
      var y := HeldCert(src, c);
    }
    forall c | c in CaRows(p) && HasCa(t, c.id) ensures HasCaFingerprint(t, c.fingerprint) {
      var i :| 0 <= i < |src.caCerts| && CaRows(p)[i] == c;
      var c' :| c' in t.caCerts && c'.id == c.id;
      MapMembers(PackCa, t.caCerts);
      MapMembers(PackCa, src.caCerts);
      assert PackCa(c') in Holds(t).caCerts && PackCa(src.caCerts[i]) in Holds(src).caCerts;
    }
    forall a | a in p.apps && HasApp(t, a.id) ensures HasExe(t, a.exePath) {
      var a' :| a' in t.apps && a'.id == a.id;
      assert a' in Holds(t).apps && a in Holds(src).apps;
    }
  }

  lemma AgreeingStoresAccept(t: Db, src: Db, now: int)
    requires StoreOk(t) && StoreOk(src) && Agree(Holds(t), Holds(src))
    ensures Accepts(t, Collect(src, now))
  {
    var p := Collect(src, now);
    CollectedRows(src, now);
    AgreeingStoresFit(t, src, now);
    forall id | HasCert(src, id) ensures CertArrives(t, p, id) {
      var c :| c in src.certs && c.id == id;
      if HasFingerprint(t, c.fingerprint) {
        var c' :| c' in t.certs && c'.fingerprint == c.fingerprint;
        var x := HeldCert(t, c');
        var y := HeldCert(src, c);
        assert HasCert(t, id);
      }
    }
    forall id | AppRefOk(src, id) ensures AppArrives(t, p, id) {
      if id.Some? {
        var a :| a in src.apps && a.id == id.value;
        if HasExe(t, a.exePath) {
          var a' :| a' in t.apps && a'.exePath == a.exePath;
          assert a' in Holds(t).apps && a in Holds(src).apps;
          assert HasApp(t, id.value);
        }
      }
    }
    assert forall r :: r in src.routes ==> RouteRefsOk(src, r);
    assert forall r :: r in src.sshRoutes ==> SshRouteRefsOk(src, r);
  }

  lemma UnionOfRows<R(!new)>(key: R -> string, t: seq<R>, rows: seq<R>)
    requires forall x, y :: x in t && y in rows && key(x) == key(y) ==> x == y
    ensures Elements(t + Filter(NewBy(key, t), rows)) == Elements(t) + Elements(rows)
  {
    var g := t + Filter(NewBy(key, t), rows);
    forall x ensures x in g <==> x in t || x in rows {
      if x in rows && Has(key, t, key(x)) {
        var y :| y in t && key(y) == key(x);
      }
    }
  }

  lemma UnionOfPacked<R(!new), B(!new)>(pack: R -> B, key: R -> string, t: seq<R>, rows: seq<R>)
    requires forall x, y :: x in t && y in rows && key(x) == key(y) ==> pack(x) == pack(y)
    ensures Elements(Map(pack, t + Filter(NewBy(key, t), rows))) == Elements(Map(pack, t)) + Elements(Map(pack, rows))
  {
    var g := t + Filter(NewBy(key, t), rows);
    MapMembers(pack, g);
    MapMembers(pack, t);
    MapMembers(pack, rows);
    forall y | y in Map(pack, rows) ensures y in Map(pack, g) {
      var r :| r in rows && pack(r) == y;
      if Has(key, t, key(r)) {
        var r' :| r' in t && key(r') == key(r);
        assert r' in g;
      } else {
        assert r in g;
      }
    }
    forall y | y in Map(pack, t) ensures y in Map(pack, g) {
      var r :| r in t && pack(r) == y;
      assert r in g;
    }
  }

  // A key row drawn for a new certificate belongs to no certificate of the target.
  lemma MergedOwners(t: Db, src: Db, now: int, d: Draws)
    requires StoreOk(t) && StoreOk(src) && EntriesFit(t, Collect(src, now))
    ensures var p := Collect(src, now);
      && (forall k :: k in NewKeys(t, p.certs, d.keyId) ==> !HasCert(t, k.certId))
      && (forall c :: c in Filter(NewBy(CertFingerprint, t.certs), CertRows(p)) ==> !HasCert(t, c.id) && c in src.certs)
  {
    var p := Collect(src, now);
    CollectedRows(src, now);
    forall k | k in NewKeys(t, p.certs, d.keyId) ensures !HasCert(t, k.certId) {
      var i := NewKeyOwner(t, p.certs, d.keyId, k);
      assert CertRows(p)[i] in CertRows(p);
    }
  }

  lemma {:induction false} NewKeysDistinct(t: Db, cs: seq<BackupCert>, keyId: nat -> string)
    requires DistinctBy(BCertId, cs)
    ensures DistinctBy(KeyCert, NewKeys(t, cs, keyId))
  {
    if cs != [] {
      var n := |cs| - 1;
      NewKeysDistinct(t, cs[..n], keyId);
      forall k | k in NewKeys(t, cs[..n], keyId) ensures k.certId != cs[n].id {
        var i := NewKeyOwner(t, cs[..n], keyId, k);
        assert BCertId(cs[i]) != BCertId(cs[n]);
      }
    }
  }

  function BCertId(b: BackupCert): string { b.id }

  lemma MergedKeysDistinct(t: Db, src: Db, now: int, d: Draws)
    requires StoreOk(t) && StoreOk(src) && EntriesFit(t, Collect(src, now))
    ensures DistinctBy(KeyCert, Merged(t, Collect(src, now), d).keys)
  {
    var p := Collect(src, now);
    CollectedRows(src, now);
    MergedOwners(t, src, now, d);
    forall i, j | 0 <= i < j < |p.certs| ensures BCertId(p.certs[i]) != BCertId(p.certs[j]) {
      assert CertId(CertRows(p)[i]) != CertId(CertRows(p)[j]);
    }
    NewKeysDistinct(t, p.certs, d.keyId);
    ConcatDistinct(KeyCert, t.keys, NewKeys(t, p.certs, d.keyId));
  }

  lemma MergedHasKeys(t: Db, src: Db, now: int, d: Draws, c: CertRow)
    requires OneKeyEach(t) && c in Merged(t, Collect(src, now), d).certs
    ensures HasKeyFor(Merged(t, Collect(src, now), d), c.id)
  {
    var p := Collect(src, now);
    var m := Merged(t, p, d);
    if c in t.certs {
      assert HasKeyFor(t, c.id);
      var k :| k in t.keys && k.certId == c.id;
      assert k in m.keys;
    } else {
      assert c in Filter(NewBy(CertFingerprint, t.certs), CertRows(p));
      assert NewBy(CertFingerprint, t.certs)(c);
      assert !HasFingerprint(t, CertFingerprint(c));
      var i :| 0 <= i < |p.certs| && CertRows(p)[i] == c;
      NewCertHasKey(t, p.certs, d.keyId, i);
      assert UnpackKey(p.certs[i], d.keyId(i)) in m.keys;
    }
  }

  lemma MergedOneKeyEach(t: Db, src: Db, now: int, d: Draws)
    requires StoreOk(t) && StoreOk(src) && EntriesFit(t, Collect(src, now))
    ensures OneKeyEach(Merged(t, Collect(src, now), d))
  {
    MergedKeysDistinct(t, src, now, d);
    forall c | c in Merged(t, Collect(src, now), d).certs
      ensures HasKeyFor(Merged(t, Collect(src, now), d), c.id)
    {
      MergedHasKeys(t, src, now, d, c);
    }
  }

  lemma PackedIsHeld(m: Db, c: CertRow, k: KeyRow)
    requires c in m.certs && k in m.keys && k.certId == c.id
    ensures PackCert(c, k) in Holds(m).certs
  {
    JoinCertsMembers(m.certs, m.keys);
  }

  lemma MergedKeepsCert(t: Db, src: Db, now: int, d: Draws, b: BackupCert)
    requires b in Holds(t).certs
    ensures b in Holds(Merged(t, Collect(src, now), d)).certs
  {
    var m := Merged(t, Collect(src, now), d);
    var c, k := HeldCertOf(t, b);
    assert c in m.certs && k in m.keys;
    PackedIsHeld(m, c, k);
  }

  lemma MergedGainsCert(t: Db, src: Db, now: int, d: Draws, b: BackupCert)
    requires StoreOk(t) && StoreOk(src) && Agree(Holds(t), Holds(src)) && b in Holds(src).certs
    ensures b in Holds(Merged(t, Collect(src, now), d)).certs
  {
    var p := Collect(src, now);
    if HasFingerprint(t, b.fingerprint) {
      var c :| c in t.certs && c.fingerprint == b.fingerprint;
      var b' := HeldCert(t, c);
      MergedKeepsCert(t, src, now, d, b');
    } else {
      MergedGainsNewCert(t, src, now, d, b);
    }
  }

  lemma MergedGainsNewCert(t: Db, src: Db, now: int, d: Draws, b: BackupCert)
    requires b in Holds(src).certs && !HasFingerprint(t, b.fingerprint)
    ensures b in Holds(Merged(t, Collect(src, now), d)).certs
  {
    var p := Collect(src, now);
    var i :| 0 <= i < |p.certs| && p.certs[i] == b;
    NewRowsArrive(t, p, d, i);
    PackedIsHeld(Merged(t, p, d), UnpackCert(b), UnpackKey(b, d.keyId(i)));
    var c, k := HeldCertOf(src, b);
    Repacked(c, k, d.keyId(i));
  }

  lemma NewRowIsKept<R(!new)>(key: R -> string, t: seq<R>, rows: seq<R>, row: R)
    requires row in rows && !Has(key, t, key(row))
    ensures row in Filter(NewBy(key, t), rows)
  {
    assert NewBy(key, t)(row);
  }

  lemma NewRowsArrive(t: Db, p: Payload, d: Draws, i: nat)
    requires i < |p.certs| && !HasFingerprint(t, p.certs[i].fingerprint)
    ensures UnpackCert(p.certs[i]) in Merged(t, p, d).certs
    ensures UnpackKey(p.certs[i], d.keyId(i)) in Merged(t, p, d).keys
  {
    NewCertHasKey(t, p.certs, d.keyId, i);
    var row := UnpackCert(p.certs[i]);
    assert CertRows(p)[i] == row;
    NewRowIsKept(CertFingerprint, t.certs, CertRows(p), row);
  }

  lemma MergedCertKnown(t: Db, src: Db, now: int, d: Draws, c: CertRow, k: KeyRow)
    requires StoreOk(t) && StoreOk(src) && EntriesFit(t, Collect(src, now))
    requires var m := Merged(t, Collect(src, now), d); c in m.certs && k in m.keys && k.certId == c.id
    ensures PackCert(c, k) in Holds(t).certs || PackCert(c, k) in Holds(src).certs
  {
    var p := Collect(src, now);
    MergedOwners(t, src, now, d);
    if c in t.certs {
      assert HasCert(t, c.id);
      assert k in t.keys;
      PackedIsHeld(t, c, k);
    } else {
      assert !HasCert(t, c.id);
      assert k in t.keys ==> HasCert(t, k.certId);
      var i := NewKeyOwner(t, p.certs, d.keyId, k);
      SameOwner(src, now, i, c);
      var c0, k0 := HeldCertOf(src, p.certs[i]);
      Repacked(c0, k0, d.keyId(i));
    }
  }

  lemma SameOwner(src: Db, now: int, i: nat, c: CertRow)
    requires StoreOk(src) && i < |Collect(src, now).certs| && c in src.certs
    requires Collect(src, now).certs[i].id == c.id
    ensures UnpackCert(Collect(src, now).certs[i]) == c
  {
    CollectedRows(src, now);
    assert UnpackCert(Collect(src, now).certs[i]) == src.certs[i];
    var j :| 0 <= j < |src.certs| && src.certs[j] == c;
    assert CertId(src.certs[i]) == CertId(src.certs[j]);
  }

  lemma MergedCertsUnion(t: Db, src: Db, now: int, d: Draws)
    requires StoreOk(t) && StoreOk(src) && Agree(Holds(t), Holds(src)) && EntriesFit(t, Collect(src, now))
    ensures Holds(Merged(t, Collect(src, now), d)).certs == Holds(t).certs + Holds(src).certs
  {
    var m := Merged(t, Collect(src, now), d);
    forall b | b in Holds(m).certs ensures b in Holds(t).certs || b in Holds(src).certs {
      var c, k := HeldCertOf(m, b);
      MergedCertKnown(t, src, now, d, c, k);
    }
    forall b | b in Holds(t).certs ensures b in Holds(Merged(t, Collect(src, now), d)).certs {
      MergedKeepsCert(t, src, now, d, b);
    }
    forall b | b in Holds(src).certs ensures b in Holds(Merged(t, Collect(src, now), d)).certs {
      MergedGainsCert(t, src, now, d, b);
    }
  }

  lemma MergedSshKeysUnion(t: Db, src: Db)
    requires Agree(Holds(t), Holds(src))
    ensures Elements(Map(PackSshKey, t.sshKeys + Filter(NewBy(SshKeyId, t.sshKeys), src.sshKeys)))
         == Holds(t).sshKeys + Holds(src).sshKeys
  {
    MapMembers(PackSshKey, t.sshKeys);
    MapMembers(PackSshKey, src.sshKeys);
    forall x, y | x in t.sshKeys && y in src.sshKeys && SshKeyId(x) == SshKeyId(y)
      ensures PackSshKey(x) == PackSshKey(y)
    {
      assert PackSshKey(x) in Holds(t).sshKeys && PackSshKey(y) in Holds(src).sshKeys;
    }
    UnionOfPacked(PackSshKey, SshKeyId, t.sshKeys, src.sshKeys);
  }

  lemma MergedCasUnion(t: Db, src: Db)
    requires Agree(Holds(t), Holds(src))
    ensures Elements(Map(PackCa, t.caCerts + Filter(NewBy(CaFingerprint, t.caCerts), Map(ForgetFile, src.caCerts))))
         == Holds(t).caCerts + Holds(src).caCerts
  {
    var rows := Map(ForgetFile, src.caCerts);
    assert Map(PackCa, rows) == Map(PackCa, src.caCerts);
    MapMembers(PackCa, t.caCerts);
    MapMembers(PackCa, rows);
    forall x, y | x in t.caCerts && y in rows && CaFingerprint(x) == CaFingerprint(y) ensures PackCa(x) == PackCa(y) {
      assert PackCa(x) in Holds(t).caCerts && PackCa(y) in Holds(src).caCerts;
    }
    UnionOfPacked(PackCa, CaFingerprint, t.caCerts, rows);
  }

  lemma MergedRowsUnion(t: Db, src: Db)
    requires Agree(Holds(t), Holds(src))
    ensures Elements(t.apps + Filter(NewBy(AppExe, t.apps), src.apps)) == Holds(t).apps + Holds(src).apps
    ensures Elements(t.routes + Filter(NewBy(RouteId, t.routes), src.routes)) == Holds(t).routes + Holds(src).routes
    ensures Elements(t.sshRoutes + Filter(NewBy(SshRouteId, t.sshRoutes), src.sshRoutes))
         == Holds(t).sshRoutes + Holds(src).sshRoutes
  {
    assert forall x, y :: x in t.apps && y in src.apps ==> x in Holds(t).apps && y in Holds(src).apps;
    UnionOfRows(AppExe, t.apps, src.apps);
    assert forall x, y :: x in t.routes && y in src.routes ==> x in Holds(t).routes && y in Holds(src).routes;
    UnionOfRows(RouteId, t.routes, src.routes);
    assert forall x, y :: x in t.sshRoutes && y in src.sshRoutes ==>
      x in Holds(t).sshRoutes && y in Holds(src).sshRoutes;
    UnionOfRows(SshRouteId, t.sshRoutes, src.sshRoutes);
  }

  // The merged store holds the union of the two.
  lemma MergedHolds(t: Db, src: Db, now: int, d: Draws)
    requires StoreOk(t) && StoreOk(src) && Agree(Holds(t), Holds(src))
    ensures Holds(Merged(t, Collect(src, now), d)) == Union(Holds(t), Holds(src))
  {
    AgreeingStoresFit(t, src, now);
    CollectedRows(src, now);
    MergedCertsUnion(t, src, now, d);
    MergedSshKeysUnion(t, src);
    MergedCasUnion(t, src);
    MergedRowsUnion(t, src);
  }

  // Restoring the backup of a store that agrees with the target gives the union of the two.
  lemma RestoreIsUnion(t: Db, src: Db, now: int, d: Draws)
    requires StoreOk(t) && StoreOk(src) && Agree(Holds(t), Holds(src))
    requires FreshKeys(t, d.keyId) && !HasAudit(t, d.auditId)
    ensures var r := Restore(t, Collect(src, now), d);
      r.error.None? && StoreOk(r.db) && Holds(r.db) == Union(Holds(t), Holds(src))
  {
    var p := Collect(src, now);
    CollectIsCoherent(src, now);
    AgreeingStoresAccept(t, src, now);
    BackupRestoresIff(t, p, d);
    RunKeepsSchema(Start(t), Program(p, d));
    MergedOneKeyEach(t, src, now, d);
    MergedHolds(t, src, now, d);
  }

  // What one store holds agrees with itself.
  lemma HoldsAgrees(db: Db)
    requires SchemaOk(db) && OneKeyAtMost(db)
    ensures Agree(Holds(db), Holds(db))
  {
    var p := Collect(db, 0);
    CollectIsCoherent(db, 0);
    forall x, y | x in Holds(db).certs && y in Holds(db).certs && (x.id == y.id || x.fingerprint == y.fingerprint)
      ensures x == y
    {
      var i :| 0 <= i < |p.certs| && p.certs[i] == x;
      var j :| 0 <= j < |p.certs| && p.certs[j] == y;
      assert CertId(CertRows(p)[i]) == x.id && CertFingerprint(CertRows(p)[i]) == x.fingerprint;
      assert CertId(CertRows(p)[j]) == y.id && CertFingerprint(CertRows(p)[j]) == y.fingerprint;
    }
    HeldSshKeysAgree(db);
    HeldCasAgree(db);
    assert forall x, y :: CaClash(x, y) <==> x.id == y.id || x.fingerprint == y.fingerprint;
    HeldRowsAgree(db);
  }

  lemma HeldSshKeysAgree(db: Db)
    requires SchemaOk(db)
    ensures forall x, y :: x in Holds(db).sshKeys && y in Holds(db).sshKeys && x.id == y.id ==> x == y
  {
    var p := Collect(db, 0);
    forall x, y | x in Holds(db).sshKeys && y in Holds(db).sshKeys && x.id == y.id ensures x == y {
      var i :| 0 <= i < |p.sshKeys| && p.sshKeys[i] == x;
      var j :| 0 <= j < |p.sshKeys| && p.sshKeys[j] == y;
      assert SshKeyId(db.sshKeys[i]) == x.id && SshKeyId(db.sshKeys[j]) == y.id;
    }
  }

  predicate CaClash(x: BackupCa, y: BackupCa) { x.id == y.id || x.fingerprint == y.fingerprint }

  lemma HeldCasAgree(db: Db)
    requires SchemaOk(db)
    ensures forall x, y :: x in Holds(db).caCerts && y in Holds(db).caCerts && CaClash(x, y) ==> x == y
  {
    var p := Collect(db, 0);
    forall x, y | x in Holds(db).caCerts && y in Holds(db).caCerts && CaClash(x, y) ensures x == y {
      var i :| 0 <= i < |p.caCerts| && p.caCerts[i] == x;
      var j :| 0 <= j < |p.caCerts| && p.caCerts[j] == y;
      assert CaId(db.caCerts[i]) == x.id && CaFingerprint(db.caCerts[i]) == x.fingerprint;
      assert CaId(db.caCerts[j]) == y.id && CaFingerprint(db.caCerts[j]) == y.fingerprint;
    }
  }

  lemma DistinctRowsAgree<R(!new)>(key: R -> string, s: seq<R>)
    requires DistinctBy(key, s)
    ensures forall x, y :: x in s && y in s && key(x) == key(y) ==> x == y
  {
    forall x, y | x in s && y in s && key(x) == key(y) ensures x == y {
      var i :| 0 <= i < |s| && s[i] == x;
      var j :| 0 <= j < |s| && s[j] == y;
      assert key(s[i]) == key(s[j]);
    }
  }

  lemma HeldRowsAgree(db: Db)
    requires SchemaOk(db)
    ensures var h := Holds(db);
      && (forall x, y :: x in h.apps && y in h.apps && (x.id == y.id || x.exePath == y.exePath) ==> x == y)
      && (forall x, y :: x in h.routes && y in h.routes && x.id == y.id ==> x == y)
      && (forall x, y :: x in h.sshRoutes && y in h.sshRoutes && x.id == y.id ==> x == y)
  {
    DistinctRowsAgree(AppId, db.apps);
    DistinctRowsAgree(AppExe, db.apps);
    DistinctRowsAgree(RouteId, db.routes);
    DistinctRowsAgree(SshRouteId, db.sshRoutes);
    assert forall x, y :: x in db.apps && y in db.apps && (AppId(x) == AppId(y) || AppExe(x) == AppExe(y)) ==> x == y;
    assert forall x, y :: x in db.routes && y in db.routes && RouteId(x) == RouteId(y) ==> x == y;
    assert forall x, y :: x in db.sshRoutes && y in db.sshRoutes && SshRouteId(x) == SshRouteId(y) ==> x == y;
  }

  // And only then: a restore succeeds and leaves the union exactly when the two stores agree.
  lemma RestoreIsUnionIff(t: Db, src: Db, now: int, d: Draws)
    requires StoreOk(t) && StoreOk(src)
    requires FreshKeys(t, d.keyId) && !HasAudit(t, d.auditId)
    ensures var r := Restore(t, Collect(src, now), d);
      r.error.None? && Holds(r.db) == Union(Holds(t), Holds(src)) <==> Agree(Holds(t), Holds(src))
  {
    var p := Collect(src, now);
    if Agree(Holds(t), Holds(src)) {
      RestoreIsUnion(t, src, now, d);
    } else {
      var r := Restore(t, p, d);
      assert Program(p, d)[..|Program(p, d)|] == Program(p, d);
      RunKeepsSchema(Start(t), Program(p, d));
      RestoreKeepsOneKeyAtMost(t, p, d, |Program(p, d)|);
      HoldsAgrees(r.db);
      if Holds(r.db) == Union(Holds(t), Holds(src)) {
        PartsAgree(Holds(t), Holds(src));
      }
    }
  }

  lemma PartsAgree(x: Contents, y: Contents)
    requires Agree(Union(x, y), Union(x, y))
    ensures Agree(x, y)
  {
  }

  // ---- two backups, either order ------------------------------------------------------

  lemma AgreeWithUnion(x: Contents, y: Contents, z: Contents)
    requires Agree(x, z) && Agree(y, z)
    ensures Agree(Union(x, y), z)
  {
  }

  // What two restores in a row, with ids that are new each time, leave behind.
  ghost predicate Drawable(t: Db, d: Draws) { FreshKeys(t, d.keyId) && !HasAudit(t, d.auditId) }

  lemma RestoreBoth(t: Db, a: Db, b: Db, now: int, d1: Draws, d2: Draws)
    requires StoreOk(t) && StoreOk(a) && StoreOk(b)
    requires Agree(Holds(t), Holds(a)) && Agree(Holds(t), Holds(b)) && Agree(Holds(a), Holds(b))
    requires Drawable(t, d1) && Drawable(Restore(t, Collect(a, now), d1).db, d2)
    ensures var one := Restore(t, Collect(a, now), d1);
      var two := Restore(one.db, Collect(b, now), d2);
      && one.error.None? && two.error.None?
      && Holds(two.db) == Union(Union(Holds(t), Holds(a)), Holds(b))
  {
    RestoreIsUnion(t, a, now, d1);
    AgreeWithUnion(Holds(t), Holds(a), Holds(b));
    RestoreIsUnion(Restore(t, Collect(a, now), d1).db, b, now, d2);
  }

  // Two backups that agree with the target and with each other can be restored in either order,
  // and the outcome is the same: the union of all three stores.
  lemma MergeOrderIrrelevant(t: Db, a: Db, b: Db, now: int, d1: Draws, d2: Draws, e1: Draws, e2: Draws)
    requires StoreOk(t) && StoreOk(a) && StoreOk(b)
    requires Agree(Holds(t), Holds(a)) && Agree(Holds(t), Holds(b)) && Agree(Holds(a), Holds(b))
    requires Drawable(t, d1) && Drawable(Restore(t, Collect(a, now), d1).db, d2)
    requires Drawable(t, e1) && Drawable(Restore(t, Collect(b, now), e1).db, e2)
    ensures var ab := Restore(Restore(t, Collect(a, now), d1).db, Collect(b, now), d2);
      var ba := Restore(Restore(t, Collect(b, now), e1).db, Collect(a, now), e2);
      && ab.error.None? && ba.error.None?
      && Holds(ab.db) == Holds(ba.db) == Union(Union(Holds(t), Holds(a)), Holds(b))
  {
    AgreeSwaps(Holds(a), Holds(b));
    RestoreBoth(t, a, b, now, d1, d2);
    RestoreBoth(t, b, a, now, e1, e2);
    UnionSwaps(Holds(t), Holds(a), Holds(b));
  }

  lemma AgreeSwaps(x: Contents, y: Contents)
    requires Agree(x, y)
    ensures Agree(y, x)
  {
  }

  lemma UnionSwaps(x: Contents, y: Contents, z: Contents)
    ensures Union(Union(x, y), z) == Union(Union(x, z), y)
  {
  }
}
