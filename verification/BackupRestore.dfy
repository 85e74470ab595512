/** Restoring the backup of one store: its rows differ among themselves, so what a restore asks and
    adds can be said row by row against the target alone. */
module BackupRestore {
  import opened Wrappers
  import opened Seqs
  import opened Tables
  import opened Schema
  import opened Backup
  import opened RestoreRuns
  import opened RestoreExact

  // A payload that could have been collected from one store.
  predicate Coherent(p: Payload) {
    && DistinctBy(CertId, CertRows(p)) && DistinctBy(CertFingerprint, CertRows(p))
    && DistinctBy(CaId, CaRows(p)) && DistinctBy(CaFingerprint, CaRows(p))
    && DistinctBy(SshKeyId, SshKeyRows(p))
    && DistinctBy(AppId, p.apps) && DistinctBy(AppExe, p.apps)
    && DistinctBy(RouteId, p.routes) && DistinctBy(SshRouteId, p.sshRoutes)
    && (forall c :: c in p.certs ==> Hex.Decode(c.certDer).Some?)
    && (forall r :: r in p.sshRoutes ==> Has(SshKeyId, SshKeyRows(p), r.sshKeyId))
  }

  // The certificate id resolves after the restore: known already, or carried under a new fingerprint.
  predicate CertArrives(t: Db, p: Payload, id: string) {
    HasCert(t, id) || exists c :: c in CertRows(p) && CertId(c) == id && !HasFingerprint(t, c.fingerprint)
  }

  predicate AppArrives(t: Db, p: Payload, id: Option<string>) {
    id.None? || HasApp(t, id.value) || exists a :: a in p.apps && AppId(a) == id.value && !HasExe(t, a.exePath)
  }

  // No new row of the payload meets an id the target has given to another row.
  predicate EntriesFit(t: Db, p: Payload) {
    && (forall c :: c in CaRows(p) && HasCa(t, c.id) ==> HasCaFingerprint(t, c.fingerprint))
    && (forall c :: c in CertRows(p) && HasCert(t, c.id) ==> HasFingerprint(t, c.fingerprint))
    && (forall a :: a in p.apps && HasApp(t, a.id) ==> HasExe(t, a.exePath))
  }

  // No new route names a certificate or app that is skipped because the target knows it under
  // another id.
  predicate RoutesFit(t: Db, p: Payload) {
    forall r :: r in p.routes && !HasRoute(t, r.id) ==> CertArrives(t, p, r.certId) && AppArrives(t, p, r.appId)
  }

  predicate SshRoutesFit(t: Db, p: Payload) {
    forall r :: r in p.sshRoutes && !HasSshRoute(t, r.id) ==> AppArrives(t, p, r.appId)
  }

  predicate Accepts(t: Db, p: Payload) { EntriesFit(t, p) && RoutesFit(t, p) && SshRoutesFit(t, p) }

  // One key row for each certificate whose fingerprint is new.
  function NewKeys(t: Db, cs: seq<BackupCert>, keyId: nat -> string): seq<KeyRow> {
    if cs == [] then []
    else
      var n := |cs| - 1;
      NewKeys(t, cs[..n], keyId)
      + if HasFingerprint(t, cs[n].fingerprint) then [] else [UnpackKey(cs[n], keyId(n))]
  }

  // The target with the payload's new rows appended to each table.
  function Merged(t: Db, p: Payload, d: Draws): Db {
    Db(t.certs + Filter(NewBy(CertFingerprint, t.certs), CertRows(p)),
       t.keys + NewKeys(t, p.certs, d.keyId),
       t.sshKeys + Filter(NewBy(SshKeyId, t.sshKeys), SshKeyRows(p)),
       t.caCerts + Filter(NewBy(CaFingerprint, t.caCerts), CaRows(p)),
       t.apps + Filter(NewBy(AppExe, t.apps), p.apps),
       t.routes + Filter(NewBy(RouteId, t.routes), p.routes),
       t.sshRoutes + Filter(NewBy(SshRouteId, t.sshRoutes), p.sshRoutes),
       t.integrity,
       t.audit + [AuditEntry(d)])
  }

  function MergedCounts(t: Db, p: Payload): Counts {
    Counts(|Filter(NewBy(CertFingerprint, t.certs), CertRows(p))|,
           |Filter(NewBy(SshKeyId, t.sshKeys), SshKeyRows(p))|,
           |Filter(NewBy(CaFingerprint, t.caCerts), CaRows(p))|,
           |Filter(NewBy(AppExe, t.apps), p.apps)|,
           |p.routes|, |p.sshRoutes|)
  }

  // ---- on coherent payloads the general conditions say the same ------------------------

  // Among distinct certificates being new is up to the target.
  lemma NewAmongDistinct(t: Db, cs: seq<BackupCert>, i: nat)
    requires i < |cs| && DistinctBy(CertFingerprint, Unpacked(cs))
    ensures CertIsNew(t, cs, i) <==> !HasFingerprint(t, cs[i].fingerprint)
  {
    assert Unpacked(cs)[i].fingerprint == cs[i].fingerprint;
  }

  lemma {:induction false} AddedKeysAreNewKeys(t: Db, cs: seq<BackupCert>, keyId: nat -> string)
    requires DistinctBy(CertFingerprint, Unpacked(cs))
    ensures AddedKeys(t, cs, keyId) == NewKeys(t, cs, keyId)
  {
    if cs != [] {
      var n := |cs| - 1;
      assert Unpacked(cs[..n]) == Unpacked(cs)[..n];
      AddedKeysAreNewKeys(t, cs[..n], keyId);
      NewAmongDistinct(t, cs, n);
    }
  }

  lemma CertsGoInIff(t: Db, p: Payload, keyId: nat -> string)
    requires Coherent(p) && FreshKeys(t, keyId)
    ensures CertsGoIn(t, p.certs, keyId, |p.certs|) <==>
      forall c :: c in CertRows(p) && HasCert(t, c.id) ==> HasFingerprint(t, c.fingerprint)
  {
    var cs, rows := p.certs, CertRows(p);
    forall i | 0 <= i < |cs|
      ensures CertGoesIn(t, cs, keyId, i) <==> (HasCert(t, rows[i].id) ==> HasFingerprint(t, rows[i].fingerprint))
    {
      NewAmongDistinct(t, cs, i);
      assert cs[i] in cs;
      assert forall h :: 0 <= h < i ==> CertId(rows[h]) != CertId(rows[i]) && cs[h].id == rows[h].id;
    }
    assert forall i :: 0 <= i < |cs| ==> rows[i] in rows;
  }

  lemma CasGoInIff(t: Db, p: Payload)
    requires Coherent(p)
    ensures CasGoIn(t, p) <==> forall c :: c in CaRows(p) && HasCa(t, c.id) ==> HasCaFingerprint(t, c.fingerprint)
  {
    FitsAtOfDistinct(CaFingerprint, CaId, Always(), t.caCerts, CaRows(p));
  }

  lemma AppsGoInIff(t: Db, p: Payload)
    requires Coherent(p)
    ensures AppsGoIn(t, p) <==> forall a :: a in p.apps && HasApp(t, a.id) ==> HasExe(t, a.exePath)
  {
    FitsAtOfDistinct(AppExe, AppId, Always(), t.apps, p.apps);
  }

  lemma CertComesIff(t: Db, p: Payload, id: string)
    requires Coherent(p)
    ensures CertComes(t, p, id) <==> CertArrives(t, p, id)
  {
    var cs, rows := p.certs, CertRows(p);
    forall i | 0 <= i < |cs|
      ensures CertIsNew(t, cs, i) <==> !HasFingerprint(t, rows[i].fingerprint)
      ensures rows[i] in rows && rows[i].id == cs[i].id
    {
      NewAmongDistinct(t, cs, i);
    }
    if c :| c in rows && CertId(c) == id && !HasFingerprint(t, c.fingerprint) {
      var i :| 0 <= i < |rows| && rows[i] == c;
      assert CertIsNew(t, cs, i);
    }
  }

  lemma AppComesIff(t: Db, p: Payload, id: Option<string>)
    requires Coherent(p)
    ensures AppComes(t, p, id) <==> AppArrives(t, p, id)
  {
    forall i | 0 <= i < |p.apps|
      ensures NewAt(AppExe, t.apps, p.apps, i) <==> !HasExe(t, p.apps[i].exePath)
      ensures p.apps[i] in p.apps
    {
    }
    if id.Some? {
      if a :| a in p.apps && AppId(a) == id.value && !HasExe(t, a.exePath) {
        var i :| 0 <= i < |p.apps| && p.apps[i] == a;
        assert NewAt(AppExe, t.apps, p.apps, i);
      }
    }
  }

  lemma RoutesGoInIff(t: Db, p: Payload)
    requires Coherent(p)
    ensures RoutesGoIn(t, p) <==> RoutesFit(t, p)
  {
    forall i | 0 <= i < |p.routes|
      ensures p.routes[i] in p.routes
      ensures NewAt(RouteId, t.routes, p.routes, i) <==> !HasRoute(t, p.routes[i].id)
      ensures CertComes(t, p, p.routes[i].certId) <==> CertArrives(t, p, p.routes[i].certId)
      ensures AppComes(t, p, p.routes[i].appId) <==> AppArrives(t, p, p.routes[i].appId)
    {
      CertComesIff(t, p, p.routes[i].certId);
      AppComesIff(t, p, p.routes[i].appId);
    }
    if RoutesGoIn(t, p) {
      forall r | r in p.routes && !HasRoute(t, r.id) ensures CertArrives(t, p, r.certId) && AppArrives(t, p, r.appId) {
        var i :| 0 <= i < |p.routes| && p.routes[i] == r;
        assert NewAt(RouteId, t.routes, p.routes, i);
      }
    }
  }

  lemma SshRoutesGoInIff(t: Db, p: Payload)
    requires Coherent(p)
    ensures SshRoutesGoIn(t, p) <==> SshRoutesFit(t, p)
  {
    forall i | 0 <= i < |p.sshRoutes|
      ensures p.sshRoutes[i] in p.sshRoutes
      ensures NewAt(SshRouteId, t.sshRoutes, p.sshRoutes, i) <==> !HasSshRoute(t, p.sshRoutes[i].id)
      ensures AppComes(t, p, p.sshRoutes[i].appId) <==> AppArrives(t, p, p.sshRoutes[i].appId)
      ensures SshKeyComes(t, p, p.sshRoutes[i].sshKeyId)
    {
      AppComesIff(t, p, p.sshRoutes[i].appId);
      var k :| k in SshKeyRows(p) && SshKeyId(k) == p.sshRoutes[i].sshKeyId;
      var j :| 0 <= j < |SshKeyRows(p)| && SshKeyRows(p)[j] == k;
      assert p.sshKeys[j].id == p.sshRoutes[i].sshKeyId;
    }
    if SshRoutesGoIn(t, p) {
      forall r | r in p.sshRoutes && !HasSshRoute(t, r.id) ensures AppArrives(t, p, r.appId) {
        var i :| 0 <= i < |p.sshRoutes| && p.sshRoutes[i] == r;
        assert NewAt(SshRouteId, t.sshRoutes, p.sshRoutes, i);
      }
    }
  }

  lemma GrownIsMerged(t: Db, p: Payload, d: Draws)
    requires Coherent(p)
    ensures Grown(t, p, d) == Merged(t, p, d) && GrownCounts(t, p) == MergedCounts(t, p)
  {
    NewRowsOfDistinct(CertFingerprint, t.certs, CertRows(p));
    AddedKeysAreNewKeys(t, p.certs, d.keyId);
    NewRowsOfDistinct(SshKeyId, t.sshKeys, SshKeyRows(p));
    NewRowsOfDistinct(CaFingerprint, t.caCerts, CaRows(p));
    NewRowsOfDistinct(AppExe, t.apps, p.apps);
    NewRowsOfDistinct(RouteId, t.routes, p.routes);
    NewRowsOfDistinct(SshRouteId, t.sshRoutes, p.sshRoutes);
  }

  // Restoring a backup succeeds exactly when no id of the target is in the way and every new route's
  // certificate and app arrive; and then it appends the backup's new rows.
  lemma BackupRestoresIff(t: Db, p: Payload, d: Draws)
    requires Coherent(p) && FreshKeys(t, d.keyId)
    ensures Restore(t, p, d).error.None? <==> Accepts(t, p) && !HasAudit(t, d.auditId)
    ensures Accepts(t, p) && !HasAudit(t, d.auditId) ==>
      Restore(t, p, d) == Progress(Merged(t, p, d), MergedCounts(t, p), false, None)
  {
    CasGoInIff(t, p);
    CertsGoInIff(t, p, d.keyId);
    AppsGoInIff(t, p);
    RoutesGoInIff(t, p);
    SshRoutesGoInIff(t, p);
    GrownIsMerged(t, p, d);
    RestoreSucceedsIff(t, p, d);
  }
}
