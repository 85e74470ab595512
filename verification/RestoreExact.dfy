/** Restoring another store's backup: when it succeeds, and exactly what it leaves. */
module RestoreExact {
  import opened Wrappers
  import opened Seqs
  import opened Tables
  import opened Schema
  import opened Backup
  import opened RestoreRuns

  function Always<R>(): R -> bool { (r: R) => true }
  function RouteRefsIn(db: Db): RouteRow -> bool { (r: RouteRow) => RouteRefsOk(db, r) }
  function SshRouteRefsIn(db: Db): SshRouteRow -> bool { (r: SshRouteRow) => SshRouteRefsOk(db, r) }

  // ---- each phase of a restore is a run of row insertions ------------------------

  predicate CasAdded(s: Progress, e: Progress, t: seq<CaRow>) {
    |t| >= |s.db.caCerts| &&
    e == s.(db := s.db.(caCerts := t), counts := s.counts.(caCerts := s.counts.caCerts + |t| - |s.db.caCerts|))
  }

  lemma CaPhaseStep(s: Progress, e: Progress, t: seq<CaRow>, x: BackupCa)
    requires s.error.None? && CasAdded(s, e, t)
    ensures var e' := Step(e, PutCa(x));
      var t' := Put(CaFingerprint, CaId, Always(), t, UnpackCa(x));
      (e'.error.None? <==> t'.Some?) && (t'.Some? ==> CasAdded(s, e', t'.value))
  {
  }

  lemma {:induction false} CaPhase(s: Progress, xs: seq<BackupCa>)
    requires s.error.None?
    ensures var e := Run(s, Map(CaStmt, xs));
      var t := PutAll(CaFingerprint, CaId, Always(), s.db.caCerts, Map(UnpackCa, xs));
      (e.error.None? <==> t.Some?) && (t.Some? ==> CasAdded(s, e, t.value))
  {
    if xs != [] {
      var n := |xs| - 1;
      var e := Run(s, Map(CaStmt, xs[..n]));
      var t := PutAll(CaFingerprint, CaId, Always(), s.db.caCerts, Map(UnpackCa, xs[..n]));
      assert xs == xs[..n] + [xs[n]];
      CaPhase(s, xs[..n]);
      MapSnoc(CaStmt, xs[..n], xs[n]);
      MapSnoc(UnpackCa, xs[..n], xs[n]);
      assert Map(UnpackCa, xs)[..n] == Map(UnpackCa, xs[..n]);
      RunSnoc(s, Map(CaStmt, xs[..n]), PutCa(xs[n]));
      if t.Some? {
        CaPhaseStep(s, e, t.value, xs[n]);
      }
    }
  }

  predicate SshKeysAdded(s: Progress, e: Progress, t: seq<SshKeyRow>) {
    |t| >= |s.db.sshKeys| &&
    e == s.(db := s.db.(sshKeys := t), counts := s.counts.(sshKeys := s.counts.sshKeys + |t| - |s.db.sshKeys|))
  }

  lemma SshKeyPhaseStep(s: Progress, e: Progress, t: seq<SshKeyRow>, x: BackupSshKey)
    requires s.error.None? && SshKeysAdded(s, e, t)
    ensures var e' := Step(e, PutSshKey(x));
      var t' := Put(SshKeyId, SshKeyId, Always(), t, UnpackSshKey(x));
      (e'.error.None? <==> t'.Some?) && (t'.Some? ==> SshKeysAdded(s, e', t'.value))
  {
  }

  lemma {:induction false} SshKeyPhase(s: Progress, xs: seq<BackupSshKey>)
    requires s.error.None?
    ensures var e := Run(s, Map(SshKeyStmt, xs));
      var t := PutAll(SshKeyId, SshKeyId, Always(), s.db.sshKeys, Map(UnpackSshKey, xs));
      (e.error.None? <==> t.Some?) && (t.Some? ==> SshKeysAdded(s, e, t.value))
  {
    if xs != [] {
      var n := |xs| - 1;
      var e := Run(s, Map(SshKeyStmt, xs[..n]));
      var t := PutAll(SshKeyId, SshKeyId, Always(), s.db.sshKeys, Map(UnpackSshKey, xs[..n]));
      assert xs == xs[..n] + [xs[n]];
      SshKeyPhase(s, xs[..n]);
      MapSnoc(SshKeyStmt, xs[..n], xs[n]);
      MapSnoc(UnpackSshKey, xs[..n], xs[n]);
      assert Map(UnpackSshKey, xs)[..n] == Map(UnpackSshKey, xs[..n]);
      RunSnoc(s, Map(SshKeyStmt, xs[..n]), PutSshKey(xs[n]));
      if t.Some? {
        SshKeyPhaseStep(s, e, t.value, xs[n]);
      }
    }
  }

  predicate AppsAdded(s: Progress, e: Progress, t: seq<AppRow>) {
    |t| >= |s.db.apps| &&
    e == s.(db := s.db.(apps := t), counts := s.counts.(apps := s.counts.apps + |t| - |s.db.apps|))
  }

  lemma AppPhaseStep(s: Progress, e: Progress, t: seq<AppRow>, x: AppRow)
    requires s.error.None? && AppsAdded(s, e, t)
    ensures var e' := Step(e, PutApp(x));
      var t' := Put(AppExe, AppId, Always(), t, x);
      (e'.error.None? <==> t'.Some?) && (t'.Some? ==> AppsAdded(s, e', t'.value))
  {
  }

  lemma {:induction false} AppPhase(s: Progress, xs: seq<AppRow>)
    requires s.error.None?
    ensures var e := Run(s, Map(AppStmt, xs));
      var t := PutAll(AppExe, AppId, Always(), s.db.apps, xs);
      (e.error.None? <==> t.Some?) && (t.Some? ==> AppsAdded(s, e, t.value))
  {
    if xs != [] {
      var n := |xs| - 1;
      var e := Run(s, Map(AppStmt, xs[..n]));
      var t := PutAll(AppExe, AppId, Always(), s.db.apps, xs[..n]);
      assert xs == xs[..n] + [xs[n]];
      AppPhase(s, xs[..n]);
      MapSnoc(AppStmt, xs[..n], xs[n]);
      RunSnoc(s, Map(AppStmt, xs[..n]), PutApp(xs[n]));
      if t.Some? {
        AppPhaseStep(s, e, t.value, xs[n]);
      }
    }
  }

  predicate RoutesAdded(s: Progress, e: Progress, t: seq<RouteRow>, n: nat) {
    e == s.(db := s.db.(routes := t), counts := s.counts.(routes := s.counts.routes + n))
  }

  lemma RoutePhaseStep(s: Progress, e: Progress, t: seq<RouteRow>, n: nat, x: RouteRow)
    requires s.error.None? && RoutesAdded(s, e, t, n)
    ensures var e' := Step(e, PutRoute(x));
      var t' := Put(RouteId, RouteId, RouteRefsIn(s.db), t, x);
      (e'.error.None? <==> t'.Some?) && (t'.Some? ==> RoutesAdded(s, e', t'.value, n + 1))
  {
  }

  // Ignored routes are counted too.
  lemma {:induction false} RoutePhase(s: Progress, xs: seq<RouteRow>)
    requires s.error.None?
    ensures var e := Run(s, Map(RouteStmt, xs));
      var t := PutAll(RouteId, RouteId, RouteRefsIn(s.db), s.db.routes, xs);
      (e.error.None? <==> t.Some?) && (t.Some? ==> RoutesAdded(s, e, t.value, |xs|))
  {
    if xs != [] {
      var n := |xs| - 1;
      var e := Run(s, Map(RouteStmt, xs[..n]));
      var t := PutAll(RouteId, RouteId, RouteRefsIn(s.db), s.db.routes, xs[..n]);
      assert xs == xs[..n] + [xs[n]];
      RoutePhase(s, xs[..n]);
      MapSnoc(RouteStmt, xs[..n], xs[n]);
      RunSnoc(s, Map(RouteStmt, xs[..n]), PutRoute(xs[n]));
      if t.Some? {
        RoutePhaseStep(s, e, t.value, n, xs[n]);
      }
    }
  }

  predicate SshRoutesAdded(s: Progress, e: Progress, t: seq<SshRouteRow>, n: nat) {
    e == s.(db := s.db.(sshRoutes := t), counts := s.counts.(sshRoutes := s.counts.sshRoutes + n))
  }

  lemma SshRoutePhaseStep(s: Progress, e: Progress, t: seq<SshRouteRow>, n: nat, x: SshRouteRow)
    requires s.error.None? && SshRoutesAdded(s, e, t, n)
    ensures var e' := Step(e, PutSshRoute(x));
      var t' := Put(SshRouteId, SshRouteId, SshRouteRefsIn(s.db), t, x);
      (e'.error.None? <==> t'.Some?) && (t'.Some? ==> SshRoutesAdded(s, e', t'.value, n + 1))
  {
  }

  lemma {:induction false} SshRoutePhase(s: Progress, xs: seq<SshRouteRow>)
    requires s.error.None?
    ensures var e := Run(s, Map(SshRouteStmt, xs));
      var t := PutAll(SshRouteId, SshRouteId, SshRouteRefsIn(s.db), s.db.sshRoutes, xs);
      (e.error.None? <==> t.Some?) && (t.Some? ==> SshRoutesAdded(s, e, t.value, |xs|))
  {
    if xs != [] {
      var n := |xs| - 1;
      var e := Run(s, Map(SshRouteStmt, xs[..n]));
      var t := PutAll(SshRouteId, SshRouteId, SshRouteRefsIn(s.db), s.db.sshRoutes, xs[..n]);
      assert xs == xs[..n] + [xs[n]];
      SshRoutePhase(s, xs[..n]);
      MapSnoc(SshRouteStmt, xs[..n], xs[n]);
      RunSnoc(s, Map(SshRouteStmt, xs[..n]), PutSshRoute(xs[n]));
      if t.Some? {
        SshRoutePhaseStep(s, e, t.value, n, xs[n]);
      }
    }
  }

  // ---- certificates and their keys ---------------------------------------------------

  // The rows a payload's certificates would take in the table.
  function Unpacked(cs: seq<BackupCert>): seq<CertRow> { Map(UnpackCert, cs) }

  // Neither the target nor an earlier entry has the fingerprint.
  predicate CertIsNew(t: Db, cs: seq<BackupCert>, i: nat)
    requires i < |cs|
  {
    NewAt(CertFingerprint, t.certs, Unpacked(cs), i)
  }

  // A new certificate must decode, and its id be unused by the target and the earlier new ones.
  predicate CertFits(t: Db, cs: seq<BackupCert>, i: nat)
    requires i < |cs|
  {
    && Hex.Decode(cs[i].certDer).Some? && !HasCert(t, cs[i].id)
    && forall h :: 0 <= h < i && CertIsNew(t, cs, h) ==> cs[h].id != cs[i].id
  }

  // The id drawn for its key must be unused by the target and the earlier new keys.
  predicate KeyFits(t: Db, cs: seq<BackupCert>, keyId: nat -> string, i: nat)
    requires i < |cs|
  {
    !HasKey(t, keyId(i)) && forall h :: 0 <= h < i && CertIsNew(t, cs, h) ==> keyId(h) != keyId(i)
  }

  predicate CertGoesIn(t: Db, cs: seq<BackupCert>, keyId: nat -> string, i: nat)
    requires i < |cs|
  {
    CertIsNew(t, cs, i) ==> CertFits(t, cs, i) && KeyFits(t, cs, keyId, i)
  }

  predicate CertsGoIn(t: Db, cs: seq<BackupCert>, keyId: nat -> string, n: nat)
    requires n <= |cs|
  {
    forall i :: 0 <= i < n ==> CertGoesIn(t, cs, keyId, i)
  }

  function AddedCerts(t: Db, cs: seq<BackupCert>): seq<CertRow> { NewRows(CertFingerprint, t.certs, Unpacked(cs)) }

  // One key row for each new certificate.
  function AddedKeys(t: Db, cs: seq<BackupCert>, keyId: nat -> string): seq<KeyRow> {
    if cs == [] then []
    else
      var n := |cs| - 1;
      AddedKeys(t, cs[..n], keyId) + if CertIsNew(t, cs, n) then [UnpackKey(cs[n], keyId(n))] else []
  }

  lemma CertsInFront(t: Db, cs: seq<BackupCert>, keyId: nat -> string, n: nat)
    requires n <= |cs|
    ensures forall i :: 0 <= i < n ==> CertIsNew(t, cs[..n], i) == CertIsNew(t, cs, i)
    ensures forall i :: 0 <= i < n ==> CertFits(t, cs[..n], i) == CertFits(t, cs, i)
    ensures forall i :: 0 <= i < n ==> KeyFits(t, cs[..n], keyId, i) == KeyFits(t, cs, keyId, i)
    ensures forall k :: 0 <= k <= n ==> CertsGoIn(t, cs[..n], keyId, k) == CertsGoIn(t, cs, keyId, k)
  {
    assert Unpacked(cs[..n]) == Unpacked(cs)[..n];
    NewAtInFront(CertFingerprint, t.certs, Unpacked(cs), n);
    assert forall i :: 0 <= i < n ==> cs[..n][i] == cs[i];
    forall k | 0 <= k <= n ensures CertsGoIn(t, cs[..n], keyId, k) == CertsGoIn(t, cs, keyId, k) {
      assert forall i :: 0 <= i < k ==> CertGoesIn(t, cs[..n], keyId, i) == CertGoesIn(t, cs, keyId, i);
    }
  }

  lemma AddedCertsHave(t: Db, e: Db, cs: seq<BackupCert>, fingerprint: string, id: string)
    requires e.certs == t.certs + AddedCerts(t, cs)
    ensures HasFingerprint(e, fingerprint) <==>
      HasFingerprint(t, fingerprint) || exists h :: 0 <= h < |cs| && cs[h].fingerprint == fingerprint
    ensures HasCert(e, id) <==>
      HasCert(t, id) || exists h :: 0 <= h < |cs| && CertIsNew(t, cs, h) && cs[h].id == id
  {
    var rows := Unpacked(cs);
    NewRowsCover(CertFingerprint, t.certs, rows, fingerprint);
    NewRowsHave(CertFingerprint, CertId, t.certs, rows, id);
    assert forall h :: 0 <= h < |cs| ==> CertFingerprint(rows[h]) == cs[h].fingerprint && CertId(rows[h]) == cs[h].id;
  }

  lemma {:induction false} AddedKeysHave(t: Db, e: Db, cs: seq<BackupCert>, keyId: nat -> string, id: string)
    requires e.keys == t.keys + AddedKeys(t, cs, keyId)
    ensures HasKey(e, id) <==> HasKey(t, id) || exists h :: 0 <= h < |cs| && CertIsNew(t, cs, h) && keyId(h) == id
    decreases cs
  {
    if cs == [] {
      assert t.keys + [] == t.keys;
    } else {
      var n := |cs| - 1;
      var front := AddedKeys(t, cs[..n], keyId);
      var last := if CertIsNew(t, cs, n) then [UnpackKey(cs[n], keyId(n))] else [];
      AddedKeysHave(t, t.(keys := t.keys + front), cs[..n], keyId, id);
      CertsInFront(t, cs, keyId, n);
      assert e.keys == t.keys + front + last;
      HasInConcat(KeyId, t.keys + front, last, id);
      assert Has(KeyId, last, id) <==> CertIsNew(t, cs, n) && keyId(n) == id by {
        assert forall k :: k in last ==> k == UnpackKey(cs[n], keyId(n));
        if CertIsNew(t, cs, n) { assert UnpackKey(cs[n], keyId(n)) in last; }
      }
    }
  }

  predicate CertsAdded(s: Progress, e: Progress, cs: seq<BackupCert>, keyId: nat -> string) {
    var certs := s.db.certs + AddedCerts(s.db, cs);
    e == s.(db := s.db.(certs := certs, keys := s.db.keys + AddedKeys(s.db, cs, keyId)),
            counts := s.counts.(certs := s.counts.certs + |AddedCerts(s.db, cs)|))
  }

  // What the last certificate of a list meets when all before it are in.
  lemma LastCertMeets(s: Progress, e: Progress, cs: seq<BackupCert>, keyId: nat -> string)
    requires cs != [] && CertsAdded(s, e, cs[..|cs| - 1], keyId)
    ensures var n := |cs| - 1;
      && (HasFingerprint(e.db, cs[n].fingerprint) <==> !CertIsNew(s.db, cs, n))
      && (Hex.Decode(cs[n].certDer).Some? && !HasCert(e.db, cs[n].id) <==> CertFits(s.db, cs, n))
      && (HasKey(e.db, keyId(n)) <==> !KeyFits(s.db, cs, keyId, n))
  {
    var n := |cs| - 1;
    CertsInFront(s.db, cs, keyId, n);
    AddedCertsHave(s.db, e.db, cs[..n], cs[n].fingerprint, cs[n].id);
    AddedKeysHave(s.db, e.db, cs[..n], keyId, keyId(n));
    var rows := Unpacked(cs);
    assert forall h :: 0 <= h < n ==> cs[..n][h] == cs[h] && CertFingerprint(rows[h]) == cs[h].fingerprint;
  }

  lemma LastCertAdds(t: Db, cs: seq<BackupCert>, keyId: nat -> string)
    requires cs != []
    ensures var n := |cs| - 1;
      && AddedCerts(t, cs) == AddedCerts(t, cs[..n]) + (if CertIsNew(t, cs, n) then [UnpackCert(cs[n])] else [])
      && AddedKeys(t, cs, keyId) ==
           AddedKeys(t, cs[..n], keyId) + (if CertIsNew(t, cs, n) then [UnpackKey(cs[n], keyId(n))] else [])
  {
    assert Unpacked(cs)[..|cs| - 1] == Unpacked(cs[..|cs| - 1]);
  }

  // The two statements of the last certificate, when all before it are in.
  lemma SkippedCertTurn(s: Progress, e: Progress, cs: seq<BackupCert>, keyId: nat -> string)
    requires s.error.None? && !s.keyDue && cs != [] && CertsAdded(s, e, cs[..|cs| - 1], keyId)
    requires !CertIsNew(s.db, cs, |cs| - 1)
    ensures var n := |cs| - 1;
      Step(e, PutCert(cs[n])) == e && Step(e, PutKey(cs[n], keyId(n))) == e && CertsAdded(s, e, cs, keyId)
  {
    LastCertMeets(s, e, cs, keyId);
    LastCertAdds(s.db, cs, keyId);
  }

  lemma RefusedCertTurn(s: Progress, e: Progress, cs: seq<BackupCert>, keyId: nat -> string)
    requires s.error.None? && !s.keyDue && cs != [] && CertsAdded(s, e, cs[..|cs| - 1], keyId)
    requires CertIsNew(s.db, cs, |cs| - 1) && !CertFits(s.db, cs, |cs| - 1)
    ensures var e1 := Step(e, PutCert(cs[|cs| - 1])); e1.error.Some? && !e1.keyDue
  {
    LastCertMeets(s, e, cs, keyId);
  }

  lemma NewCertTurn(s: Progress, e: Progress, cs: seq<BackupCert>, keyId: nat -> string)
    requires s.error.None? && !s.keyDue && cs != [] && CertsAdded(s, e, cs[..|cs| - 1], keyId)
    requires CertIsNew(s.db, cs, |cs| - 1) && CertFits(s.db, cs, |cs| - 1)
    ensures var n := |cs| - 1;
      var e1 := Step(e, PutCert(cs[n]));
      var e2 := Step(e1, PutKey(cs[n], keyId(n)));
      && e1.error.None? && e1.keyDue
      && (!KeyFits(s.db, cs, keyId, n) ==> e2.error.Some? && e2.keyDue)
      && (KeyFits(s.db, cs, keyId, n) ==> CertsAdded(s, e2, cs, keyId))
  {
    var n := |cs| - 1;
    LastCertMeets(s, e, cs, keyId);
    LastCertAdds(s.db, cs, keyId);
    var e1 := Step(e, PutCert(cs[n]));
    assert e1 == e.(db := e.db.(certs := e.db.certs + [UnpackCert(cs[n])]), keyDue := true);
    assert UnpackCert(cs[n]) in e1.db.certs;
    assert HasCert(e1.db, cs[n].id);
    if KeyFits(s.db, cs, keyId, n) {
      NewCertCounts(s, e, cs, keyId);
    }
  }

  lemma NewCertCounts(s: Progress, e: Progress, cs: seq<BackupCert>, keyId: nat -> string)
    requires cs != [] && CertsAdded(s, e, cs[..|cs| - 1], keyId) && CertIsNew(s.db, cs, |cs| - 1)
    ensures var n := |cs| - 1;
      CertsAdded(s, e.(db := e.db.(certs := e.db.certs + [UnpackCert(cs[n])],
                                   keys := e.db.keys + [UnpackKey(cs[n], keyId(n))]),
                       counts := e.counts.(certs := e.counts.certs + 1)), cs, keyId)
  {
    var n := |cs| - 1;
    LastCertAdds(s.db, cs, keyId);
    var c, k := AddedCerts(s.db, cs[..n]), AddedKeys(s.db, cs[..n], keyId);
    assert s.db.certs + c + [UnpackCert(cs[n])] == s.db.certs + (c + [UnpackCert(cs[n])]);
    assert s.db.keys + k + [UnpackKey(cs[n], keyId(n))] == s.db.keys + (k + [UnpackKey(cs[n], keyId(n))]);
  }

  lemma CertTurn(s: Progress, e: Progress, cs: seq<BackupCert>, keyId: nat -> string)
    requires s.error.None? && !s.keyDue && cs != [] && CertsAdded(s, e, cs[..|cs| - 1], keyId)
    ensures var n := |cs| - 1;
      var r := Step(Step(e, PutCert(cs[n])), PutKey(cs[n], keyId(n)));
      && (r.error.None? <==> CertGoesIn(s.db, cs, keyId, n))
      && (r.error.None? ==> CertsAdded(s, r, cs, keyId))
  {
    if !CertIsNew(s.db, cs, |cs| - 1) {
      SkippedCertTurn(s, e, cs, keyId);
    } else if !CertFits(s.db, cs, |cs| - 1) {
      RefusedCertTurn(s, e, cs, keyId);
    } else {
      NewCertTurn(s, e, cs, keyId);
    }
  }

  lemma CertsGoInSnoc(t: Db, cs: seq<BackupCert>, keyId: nat -> string)
    requires cs != []
    ensures CertsGoIn(t, cs, keyId, |cs|) <==>
      CertsGoIn(t, cs[..|cs| - 1], keyId, |cs| - 1) && CertGoesIn(t, cs, keyId, |cs| - 1)
  {
    CertsInFront(t, cs, keyId, |cs| - 1);
    assert CertsGoIn(t, cs[..|cs| - 1], keyId, |cs| - 1) == CertsGoIn(t, cs, keyId, |cs| - 1);
  }

  // The certificate statements of any payload all succeed exactly when each certificate goes in; and
  // then they add the new certificates and one key row for each.
  lemma {:induction false} CertPhase(s: Progress, cs: seq<BackupCert>, keyId: nat -> string)
    requires s.error.None? && !s.keyDue
    ensures var e := Run(s, CertStmts(cs, keyId));
      && (e.error.None? <==> CertsGoIn(s.db, cs, keyId, |cs|))
      && (e.error.None? ==> CertsAdded(s, e, cs, keyId))
  {
    if cs == [] {
      assert s.db.keys + [] == s.db.keys && s.db.certs + [] == s.db.certs;
    } else {
      var n := |cs| - 1;
      var e := Run(s, CertStmts(cs[..n], keyId));
      CertPhase(s, cs[..n], keyId);
      CertsGoInSnoc(s.db, cs, keyId);
      CertStmtsSnoc(s, cs, keyId);
      if e.error.None? {
        CertTurn(s, e, cs, keyId);
      }
    }
  }

  // ---- the whole restore ------------------------------------------------------------

  // The rows a payload carries, as the tables would hold them.
  function CertRows(p: Payload): seq<CertRow> { Unpacked(p.certs) }
  function CaRows(p: Payload): seq<CaRow> { Map(UnpackCa, p.caCerts) }
  function SshKeyRows(p: Payload): seq<SshKeyRow> { Map(UnpackSshKey, p.sshKeys) }

  predicate CasGoIn(t: Db, p: Payload) {
    forall i :: 0 <= i < |p.caCerts| ==> FitsAt(CaFingerprint, CaId, Always(), t.caCerts, CaRows(p), i)
  }

  predicate AppsGoIn(t: Db, p: Payload) {
    forall i :: 0 <= i < |p.apps| ==> FitsAt(AppExe, AppId, Always(), t.apps, p.apps, i)
  }

  // What a route refers to is in the target or comes with a new row of the payload.
  predicate CertComes(t: Db, p: Payload, id: string) {
    HasCert(t, id) || exists i :: 0 <= i < |p.certs| && CertIsNew(t, p.certs, i) && p.certs[i].id == id
  }

  predicate AppComes(t: Db, p: Payload, id: Option<string>) {
    id.None? || HasApp(t, id.value)
    || exists i :: 0 <= i < |p.apps| && NewAt(AppExe, t.apps, p.apps, i) && AppId(p.apps[i]) == id.value
  }

  predicate SshKeyComes(t: Db, p: Payload, id: string) {
    HasSshKey(t, id) || exists i :: 0 <= i < |p.sshKeys| && p.sshKeys[i].id == id
  }

  predicate RoutesGoIn(t: Db, p: Payload) {
    forall i :: 0 <= i < |p.routes| && NewAt(RouteId, t.routes, p.routes, i) ==>
      CertComes(t, p, p.routes[i].certId) && AppComes(t, p, p.routes[i].appId)
  }

  predicate SshRoutesGoIn(t: Db, p: Payload) {
    forall i :: 0 <= i < |p.sshRoutes| && NewAt(SshRouteId, t.sshRoutes, p.sshRoutes, i) ==>
      SshKeyComes(t, p, p.sshRoutes[i].sshKeyId) && AppComes(t, p, p.sshRoutes[i].appId)
  }

  predicate EntriesGoIn(t: Db, p: Payload, keyId: nat -> string) {
    CasGoIn(t, p) && CertsGoIn(t, p.certs, keyId, |p.certs|) && AppsGoIn(t, p)
  }

  // Every row of the payload goes in or is skipped.
  predicate Admits(t: Db, p: Payload, keyId: nat -> string) {
    EntriesGoIn(t, p, keyId) && RoutesGoIn(t, p) && SshRoutesGoIn(t, p)
  }

  // The target once CA certificates, certificates, SSH keys and apps are in.
  function Populated(t: Db, p: Payload, keyId: nat -> string): Db {
    t.(caCerts := t.caCerts + NewRows(CaFingerprint, t.caCerts, CaRows(p)),
       certs := t.certs + AddedCerts(t, p.certs),
       keys := t.keys + AddedKeys(t, p.certs, keyId),
       sshKeys := t.sshKeys + NewRows(SshKeyId, t.sshKeys, SshKeyRows(p)),
       apps := t.apps + NewRows(AppExe, t.apps, p.apps))
  }

  // And with its routes and the log entry: the payload's new rows appended to each table.
  function Grown(t: Db, p: Payload, d: Draws): Db {
    Populated(t, p, d.keyId).(
      routes := t.routes + NewRows(RouteId, t.routes, p.routes),
      sshRoutes := t.sshRoutes + NewRows(SshRouteId, t.sshRoutes, p.sshRoutes),
      audit := t.audit + [AuditEntry(d)])
  }

  // What the caller is told: rows added, except that every route of the payload counts.
  function EntryCounts(t: Db, p: Payload): Counts {
    Counts(|AddedCerts(t, p.certs)|, |NewRows(SshKeyId, t.sshKeys, SshKeyRows(p))|,
           |NewRows(CaFingerprint, t.caCerts, CaRows(p))|, |NewRows(AppExe, t.apps, p.apps)|, 0, 0)
  }

  function GrownCounts(t: Db, p: Payload): Counts {
    EntryCounts(t, p).(routes := |p.routes|, sshRoutes := |p.sshRoutes|)
  }

  function Entries(p: Payload, keyId: nat -> string): seq<Stmt> {
    Map(CaStmt, p.caCerts) + CertStmts(p.certs, keyId) + Map(SshKeyStmt, p.sshKeys) + Map(AppStmt, p.apps)
  }

  lemma EntriesInOrder(s: Progress, p: Payload, keyId: nat -> string)
    ensures Run(s, Entries(p, keyId)) ==
      Run(Run(Run(Run(s, Map(CaStmt, p.caCerts)), CertStmts(p.certs, keyId)), Map(SshKeyStmt, p.sshKeys)),
          Map(AppStmt, p.apps))
  {
    var ca, cert, ssh := Map(CaStmt, p.caCerts), CertStmts(p.certs, keyId), Map(SshKeyStmt, p.sshKeys);
    RunConcat(s, ca, cert);
    RunConcat(s, ca + cert, ssh);
    RunConcat(s, ca + cert + ssh, Map(AppStmt, p.apps));
  }

  lemma CasExact(t: Db, p: Payload)
    ensures var e := Run(Start(t), Map(CaStmt, p.caCerts));
      && (e.error.None? <==> CasGoIn(t, p))
      && (e.error.None? ==> e == Progress(
            t.(caCerts := t.caCerts + NewRows(CaFingerprint, t.caCerts, CaRows(p))),
            NO_COUNTS.(caCerts := EntryCounts(t, p).caCerts), false, None))
  {
    CaPhase(Start(t), p.caCerts);
    PutAllExact(CaFingerprint, CaId, Always(), t.caCerts, CaRows(p));
  }

  lemma SameCertsSameRows(a: Db, b: Db, cs: seq<BackupCert>, keyId: nat -> string)
    requires a.certs == b.certs && a.keys == b.keys
    ensures AddedCerts(a, cs) == AddedCerts(b, cs) && AddedKeys(a, cs, keyId) == AddedKeys(b, cs, keyId)
    ensures CertsGoIn(a, cs, keyId, |cs|) == CertsGoIn(b, cs, keyId, |cs|)
  {
    if cs != [] {
      SameCertsSameRows(a, b, cs[..|cs| - 1], keyId);
    }
    assert forall i :: 0 <= i < |cs| ==> CertGoesIn(a, cs, keyId, i) == CertGoesIn(b, cs, keyId, i);
  }

  lemma CertsExact(t: Db, p: Payload, keyId: nat -> string, s: Progress)
    requires s.error.None? && !s.keyDue && s.counts.certs == 0 && s.db.certs == t.certs && s.db.keys == t.keys
    ensures var e := Run(s, CertStmts(p.certs, keyId));
      && (e.error.None? <==> CertsGoIn(t, p.certs, keyId, |p.certs|))
      && (e.error.None? ==> e == s.(
            db := s.db.(certs := t.certs + AddedCerts(t, p.certs), keys := t.keys + AddedKeys(t, p.certs, keyId)),
            counts := s.counts.(certs := EntryCounts(t, p).certs)))
  {
    CertPhase(s, p.certs, keyId);
    SameCertsSameRows(t, s.db, p.certs, keyId);
  }

  lemma SshKeysExact(t: Db, p: Payload, s: Progress)
    requires s.error.None? && s.counts.sshKeys == 0 && s.db.sshKeys == t.sshKeys
    ensures Run(s, Map(SshKeyStmt, p.sshKeys)) == s.(
      db := s.db.(sshKeys := t.sshKeys + NewRows(SshKeyId, t.sshKeys, SshKeyRows(p))),
      counts := s.counts.(sshKeys := EntryCounts(t, p).sshKeys))
  {
    SshKeyPhase(s, p.sshKeys);
    PutAllExact(SshKeyId, SshKeyId, Always(), t.sshKeys, SshKeyRows(p));
  }

  lemma AppsExact(t: Db, p: Payload, s: Progress)
    requires s.error.None? && s.counts.apps == 0 && s.db.apps == t.apps
    ensures var e := Run(s, Map(AppStmt, p.apps));
      && (e.error.None? <==> AppsGoIn(t, p))
      && (e.error.None? ==> e == s.(
            db := s.db.(apps := t.apps + NewRows(AppExe, t.apps, p.apps)),
            counts := s.counts.(apps := EntryCounts(t, p).apps)))
  {
    AppPhase(s, p.apps);
    PutAllExact(AppExe, AppId, Always(), t.apps, p.apps);
  }

  lemma EntriesExact(t: Db, p: Payload, keyId: nat -> string)
    ensures var e := Run(Start(t), Entries(p, keyId));
      && (e.error.None? <==> EntriesGoIn(t, p, keyId))
      && (e.error.None? ==> e == Progress(Populated(t, p, keyId), EntryCounts(t, p), false, None))
  {
    var cert, ssh, app := CertStmts(p.certs, keyId), Map(SshKeyStmt, p.sshKeys), Map(AppStmt, p.apps);
    EntriesInOrder(Start(t), p, keyId);
    CasExact(t, p);
    var s1 := Run(Start(t), Map(CaStmt, p.caCerts));
    var s2 := Run(s1, cert);
    var s3 := Run(s2, ssh);
    if s1.error.Some? {
      RunStops(s1, cert);
      RunStops(s2, ssh);
      RunStops(s3, app);
    } else {
      CertsExact(t, p, keyId, s1);
      if s2.error.Some? {
        RunStops(s2, ssh);
        RunStops(s3, app);
      } else {
        SshKeysExact(t, p, s2);
        AppsExact(t, p, s3);
      }
    }
  }

  lemma RefsCome(t: Db, p: Payload, keyId: nat -> string)
    ensures var m := Populated(t, p, keyId);
      && (forall id :: HasCert(m, id) <==> CertComes(t, p, id))
      && (forall id :: AppRefOk(m, id) <==> AppComes(t, p, id))
      && (forall id :: HasSshKey(m, id) <==> SshKeyComes(t, p, id))
  {
    var m := Populated(t, p, keyId);
    forall id ensures HasCert(m, id) <==> CertComes(t, p, id) {
      AddedCertsHave(t, m, p.certs, "", id);
    }
    forall id ensures AppRefOk(m, id) <==> AppComes(t, p, id) {
      if id.Some? {
        NewRowsHave(AppExe, AppId, t.apps, p.apps, id.value);
      }
    }
    forall id ensures HasSshKey(m, id) <==> SshKeyComes(t, p, id) {
      NewRowsCover(SshKeyId, t.sshKeys, SshKeyRows(p), id);
      assert forall i :: 0 <= i < |p.sshKeys| ==> SshKeyId(SshKeyRows(p)[i]) == p.sshKeys[i].id;
    }
  }

  lemma RoutesExact(t: Db, p: Payload, keyId: nat -> string, s: Progress)
    requires s.error.None? && s.db == Populated(t, p, keyId)
    ensures var e := Run(s, Map(RouteStmt, p.routes));
      && (e.error.None? <==> RoutesGoIn(t, p))
      && (e.error.None? ==> e == s.(
            db := s.db.(routes := t.routes + NewRows(RouteId, t.routes, p.routes)),
            counts := s.counts.(routes := s.counts.routes + |p.routes|)))
  {
    RefsCome(t, p, keyId);
    RoutePhase(s, p.routes);
    PutAllExact(RouteId, RouteId, RouteRefsIn(s.db), t.routes, p.routes);
    forall i | 0 <= i < |p.routes|
      ensures FitsAt(RouteId, RouteId, RouteRefsIn(s.db), t.routes, p.routes, i) <==>
        (NewAt(RouteId, t.routes, p.routes, i) ==>
           CertComes(t, p, p.routes[i].certId) && AppComes(t, p, p.routes[i].appId))
    {
      FitsAtById(RouteId, RouteRefsIn(s.db), t.routes, p.routes, i);
    }
  }

  lemma SshRoutesExact(t: Db, p: Payload, keyId: nat -> string, s: Progress)
    requires s.error.None? && s.db.(routes := t.routes) == Populated(t, p, keyId)
    ensures var e := Run(s, Map(SshRouteStmt, p.sshRoutes));
      && (e.error.None? <==> SshRoutesGoIn(t, p))
      && (e.error.None? ==> e == s.(
            db := s.db.(sshRoutes := t.sshRoutes + NewRows(SshRouteId, t.sshRoutes, p.sshRoutes)),
            counts := s.counts.(sshRoutes := s.counts.sshRoutes + |p.sshRoutes|)))
  {
    RefsCome(t, p, keyId);
    SshRoutePhase(s, p.sshRoutes);
    PutAllExact(SshRouteId, SshRouteId, SshRouteRefsIn(s.db), t.sshRoutes, p.sshRoutes);
    forall i | 0 <= i < |p.sshRoutes|
      ensures FitsAt(SshRouteId, SshRouteId, SshRouteRefsIn(s.db), t.sshRoutes, p.sshRoutes, i) <==>
        (NewAt(SshRouteId, t.sshRoutes, p.sshRoutes, i) ==>
           SshKeyComes(t, p, p.sshRoutes[i].sshKeyId) && AppComes(t, p, p.sshRoutes[i].appId))
    {
      FitsAtById(SshRouteId, SshRouteRefsIn(s.db), t.sshRoutes, p.sshRoutes, i);
    }
  }

  lemma InsertsInOrder(s: Progress, p: Payload, keyId: nat -> string)
    ensures Run(s, Inserts(p, keyId)) ==
      Run(Run(Run(s, Entries(p, keyId)), Map(RouteStmt, p.routes)), Map(SshRouteStmt, p.sshRoutes))
  {
    RunConcat(s, Entries(p, keyId) + Map(RouteStmt, p.routes), Map(SshRouteStmt, p.sshRoutes));
    RunConcat(s, Entries(p, keyId), Map(RouteStmt, p.routes));
  }

  lemma InsertsExact(t: Db, p: Payload, d: Draws)
    ensures var e := Run(Start(t), Inserts(p, d.keyId));
      && (e.error.None? <==> Admits(t, p, d.keyId))
      && (e.error.None? ==> e == Progress(Grown(t, p, d).(audit := t.audit), GrownCounts(t, p), false, None))
  {
    EntriesExact(t, p, d.keyId);
    InsertsInOrder(Start(t), p, d.keyId);
    var s1 := Run(Start(t), Entries(p, d.keyId));
    var s2 := Run(s1, Map(RouteStmt, p.routes));
    if s1.error.Some? {
      RunStops(s1, Map(RouteStmt, p.routes));
      RunStops(s2, Map(SshRouteStmt, p.sshRoutes));
    } else {
      RoutesExact(t, p, d.keyId, s1);
      if s2.error.Some? {
        RunStops(s2, Map(SshRouteStmt, p.sshRoutes));
      } else {
        SshRoutesExact(t, p, d.keyId, s2);
      }
    }
  }

  lemma RestoreEnds(t: Db, p: Payload, d: Draws)
    ensures var e := Run(Start(t), Inserts(p, d.keyId));
      var r := Restore(t, p, d);
      && (r.error.None? <==> e.error.None? && !HasAudit(e.db, d.auditId))
      && (r.error.None? ==> r == e.(db := e.db.(audit := e.db.audit + [AuditEntry(d)])))
  {
    RunSnoc(Start(t), Inserts(p, d.keyId), PutAudit(AuditEntry(d)));
  }

  // A restore of any payload with any draws succeeds exactly when the target admits the payload, a
  // condition on the inputs alone; and then it appends the payload's new rows, no more.
  lemma RestoreSucceedsIff(t: Db, p: Payload, d: Draws)
    ensures Restore(t, p, d).error.None? <==> Admits(t, p, d.keyId) && !HasAudit(t, d.auditId)
    ensures Restore(t, p, d).error.None? ==>
      Restore(t, p, d) == Progress(Grown(t, p, d), GrownCounts(t, p), false, None)
  {
    InsertsExact(t, p, d);
    RestoreEnds(t, p, d);
  }
}
