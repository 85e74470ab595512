/** When a restore leaves a certificate without its key: the exact condition on store, payload, drawn
    ids and the number of statements executed. */
module KeyLoss {
  import opened Seqs
  import opened Schema
  import opened Backup
  import opened RestoreRuns
  import opened RestoreExact

  // All certificates before the k-th go in with their keys, and the k-th certificate's row goes in.
  predicate CertReached(t: Db, cs: seq<BackupCert>, keyId: nat -> string, k: nat)
    requires k < |cs|
  {
    CertsGoIn(t, cs, keyId, k) && CertIsNew(t, cs, k) && CertFits(t, cs, k)
  }

  // Some certificate is reached whose key id is taken.
  predicate TakenIdMet(t: Db, cs: seq<BackupCert>, keyId: nat -> string, n: nat)
    requires n <= |cs|
  {
    exists k :: 0 <= k < n && CertReached(t, cs, keyId, k) && !KeyFits(t, cs, keyId, k)
  }

  // Of m statements, two for each certificate, the last is the k-th certificate, which goes in, or more
  // are executed and the k-th has met a taken key id.
  predicate LostAt(t: Db, cs: seq<BackupCert>, keyId: nat -> string, m: nat, k: nat)
    requires k < |cs|
  {
    2 * k < m && CertReached(t, cs, keyId, k) && (m == 2 * k + 1 || !KeyFits(t, cs, keyId, k))
  }

  predicate LostWithin(t: Db, cs: seq<BackupCert>, keyId: nat -> string, m: nat) {
    exists k :: 0 <= k < |cs| && LostAt(t, cs, keyId, m, k)
  }

  // The CA certificates come first.
  predicate KeyLost(t: Db, p: Payload, keyId: nat -> string, n: nat) {
    CasGoIn(t, p) && n > |p.caCerts| && LostWithin(t, p.certs, keyId, n - |p.caCerts|)
  }

  // The certificates that n statements of a restore leave without a key: none, or one.
  function LostIds(t: Db, p: Payload, keyId: nat -> string, n: nat): set<string> {
    if !CasGoIn(t, p) || n <= |p.caCerts| then {}
    else set k | 0 <= k < |p.certs| && LostAt(t, p.certs, keyId, n - |p.caCerts|, k) :: p.certs[k].id
  }

  // ---- the certificate statements ----------------------------------------------------

  lemma ReachedInFront(t: Db, cs: seq<BackupCert>, keyId: nat -> string, n: nat)
    requires n <= |cs|
    ensures forall k :: 0 <= k < n ==> CertReached(t, cs[..n], keyId, k) == CertReached(t, cs, keyId, k)
    ensures TakenIdMet(t, cs[..n], keyId, n) == TakenIdMet(t, cs, keyId, n)
  {
    CertsInFront(t, cs, keyId, n);
    assert forall k :: 0 <= k < n ==> CertsGoIn(t, cs[..n], keyId, k) == CertsGoIn(t, cs, keyId, k);
  }

  // With every certificate in, no taken id has been met.
  lemma NoTakenId(t: Db, cs: seq<BackupCert>, keyId: nat -> string, n: nat)
    requires n <= |cs| && CertsGoIn(t, cs, keyId, n)
    ensures !TakenIdMet(t, cs, keyId, n)
  {
    forall k | 0 <= k < n && CertReached(t, cs, keyId, k) ensures KeyFits(t, cs, keyId, k) {
      assert CertGoesIn(t, cs, keyId, k);
    }
  }

  lemma TakenIdSnoc(t: Db, cs: seq<BackupCert>, keyId: nat -> string)
    requires cs != []
    ensures var n := |cs| - 1;
      TakenIdMet(t, cs, keyId, |cs|) <==>
        (TakenIdMet(t, cs, keyId, n) || (CertReached(t, cs, keyId, n) && !KeyFits(t, cs, keyId, n)))
  {
    var n := |cs| - 1;
    if k :| 0 <= k < |cs| && CertReached(t, cs, keyId, k) && !KeyFits(t, cs, keyId, k) {
      assert k == n || TakenIdMet(t, cs, keyId, n);
    }
  }

  lemma DueInTurn(s: Progress, cs: seq<BackupCert>, keyId: nat -> string)
    requires s.error.None? && !s.keyDue && cs != []
    requires Run(s, CertStmts(cs[..|cs| - 1], keyId)).error.None?
    ensures var n := |cs| - 1;
      var e1 := Step(Run(s, CertStmts(cs[..n], keyId)), PutCert(cs[n]));
      && (e1.keyDue <==> CertReached(s.db, cs, keyId, n))
      && (Step(e1, PutKey(cs[n], keyId(n))).keyDue <==>
            CertReached(s.db, cs, keyId, n) && !KeyFits(s.db, cs, keyId, n))
  {
    var n := |cs| - 1;
    var e := Run(s, CertStmts(cs[..n], keyId));
    CertPhase(s, cs[..n], keyId);
    CertsInFront(s.db, cs, keyId, n);
    assert CertsGoIn(s.db, cs, keyId, n);
    if !CertIsNew(s.db, cs, n) {
      SkippedCertTurn(s, e, cs, keyId);
    } else if !CertFits(s.db, cs, n) {
      RefusedCertTurn(s, e, cs, keyId);
    } else {
      NewCertTurn(s, e, cs, keyId);
    }
  }

  // A key is due after the certificate statements exactly when one met a taken id.
  lemma {:induction false} DueAfterCerts(s: Progress, cs: seq<BackupCert>, keyId: nat -> string)
    requires s.error.None? && !s.keyDue
    ensures Run(s, CertStmts(cs, keyId)).keyDue <==> TakenIdMet(s.db, cs, keyId, |cs|)
  {
    if cs != [] {
      var n := |cs| - 1;
      var e := Run(s, CertStmts(cs[..n], keyId));
      DueAfterCerts(s, cs[..n], keyId);
      CertPhase(s, cs[..n], keyId);
      ReachedInFront(s.db, cs, keyId, n);
      CertsInFront(s.db, cs, keyId, n);
      CertStmtsSnoc(s, cs, keyId);
      assert CertsGoIn(s.db, cs[..n], keyId, n) == CertsGoIn(s.db, cs, keyId, n);
      TakenIdSnoc(s.db, cs, keyId);
      if e.error.None? {
        DueInTurn(s, cs, keyId);
        NoTakenId(s.db, cs, keyId, n);
      }
    }
  }

  // And between a certificate and its key: that certificate has gone in, or an earlier id was taken.
  lemma DueAtCert(s: Progress, cs: seq<BackupCert>, keyId: nat -> string)
    requires s.error.None? && !s.keyDue && cs != []
    ensures var n := |cs| - 1;
      Step(Run(s, CertStmts(cs[..n], keyId)), PutCert(cs[n])).keyDue <==>
        CertReached(s.db, cs, keyId, n) || TakenIdMet(s.db, cs, keyId, n)
  {
    var n := |cs| - 1;
    DueAfterCerts(s, cs[..n], keyId);
    CertPhase(s, cs[..n], keyId);
    ReachedInFront(s.db, cs, keyId, n);
    CertsInFront(s.db, cs, keyId, n);
    assert CertsGoIn(s.db, cs[..n], keyId, n) == CertsGoIn(s.db, cs, keyId, n);
    if Run(s, CertStmts(cs[..n], keyId)).error.None? {
      DueInTurn(s, cs, keyId);
      NoTakenId(s.db, cs, keyId, n);
    }
  }

  lemma {:induction false} CertStmtsTake(cs: seq<BackupCert>, keyId: nat -> string, k: nat)
    requires k <= |cs|
    ensures |CertStmts(cs, keyId)| == 2 * |cs| && CertStmts(cs, keyId)[..2 * k] == CertStmts(cs[..k], keyId)
    ensures k < |cs| ==> CertStmts(cs, keyId)[2 * k] == PutCert(cs[k])
  {
    if cs != [] {
      var n := |cs| - 1;
      if k <= n {
        CertStmtsTake(cs[..n], keyId, k);
        assert cs[..n][..k] == cs[..k];
      } else {
        CertStmtsTake(cs[..n], keyId, n);
        assert cs[..k] == cs;
      }
    }
  }

  // ---- the whole restore ---------------------------------------------------------------

  lemma SameCertsSameConditions(a: Db, b: Db, cs: seq<BackupCert>, keyId: nat -> string)
    requires a.certs == b.certs && a.keys == b.keys
    ensures forall k :: 0 <= k < |cs| ==> CertReached(a, cs, keyId, k) == CertReached(b, cs, keyId, k)
    ensures forall k :: 0 <= k < |cs| ==> KeyFits(a, cs, keyId, k) == KeyFits(b, cs, keyId, k)
  {
    assert forall k :: 0 <= k < |cs| ==> CertGoesIn(a, cs, keyId, k) == CertGoesIn(b, cs, keyId, k);
  }

  lemma LostWithinPairs(t: Db, cs: seq<BackupCert>, keyId: nat -> string, k: nat)
    requires k <= |cs|
    ensures LostWithin(t, cs, keyId, 2 * k) <==> TakenIdMet(t, cs, keyId, k)
    ensures k < |cs| ==>
      (LostWithin(t, cs, keyId, 2 * k + 1) <==> CertReached(t, cs, keyId, k) || TakenIdMet(t, cs, keyId, k))
  {
    forall j | 0 <= j < |cs|
      ensures LostAt(t, cs, keyId, 2 * k, j) <==> j < k && CertReached(t, cs, keyId, j) && !KeyFits(t, cs, keyId, j)
    {
    }
    forall j | 0 <= j < |cs|
      ensures LostAt(t, cs, keyId, 2 * k + 1, j) <==>
        j <= k && CertReached(t, cs, keyId, j) && (j == k || !KeyFits(t, cs, keyId, j))
    {
    }
  }

  lemma DueAfterPairs(s: Progress, cs: seq<BackupCert>, keyId: nat -> string, k: nat, m: nat)
    requires s.error.None? && !s.keyDue && k <= |cs| && m == 2 * k <= |CertStmts(cs, keyId)|
    ensures Run(s, CertStmts(cs, keyId)[..m]).keyDue <==> LostWithin(s.db, cs, keyId, m)
  {
    CertStmtsTake(cs, keyId, k);
    DueAfterCerts(s, cs[..k], keyId);
    ReachedInFront(s.db, cs, keyId, k);
    LostWithinPairs(s.db, cs, keyId, k);
  }

  lemma DueInsidePair(s: Progress, cs: seq<BackupCert>, keyId: nat -> string, k: nat, m: nat)
    requires s.error.None? && !s.keyDue && k < |cs| && m == 2 * k + 1 <= |CertStmts(cs, keyId)|
    ensures Run(s, CertStmts(cs, keyId)[..m]).keyDue <==> LostWithin(s.db, cs, keyId, m)
  {
    var p := CertStmts(cs, keyId);
    CertStmtsTake(cs, keyId, k);
    assert p[..m] == p[..2 * k] + [PutCert(cs[k])];
    RunSnoc(s, p[..2 * k], PutCert(cs[k]));
    assert cs[..k + 1][..k] == cs[..k];
    DueAtCert(s, cs[..k + 1], keyId);
    ReachedInFront(s.db, cs, keyId, k + 1);
    ReachedInFront(s.db, cs[..k + 1], keyId, k);
    ReachedInFront(s.db, cs, keyId, k);
    LostWithinPairs(s.db, cs, keyId, k);
  }

  // The first m certificate statements.
  lemma DueWithinCerts(s: Progress, cs: seq<BackupCert>, keyId: nat -> string, m: nat)
    requires s.error.None? && !s.keyDue && m <= |CertStmts(cs, keyId)|
    ensures Run(s, CertStmts(cs, keyId)[..m]).keyDue <==> LostWithin(s.db, cs, keyId, m)
  {
    CertStmtsTake(cs, keyId, 0);
    if m % 2 == 0 {
      DueAfterPairs(s, cs, keyId, m / 2, m);
    } else {
      DueInsidePair(s, cs, keyId, m / 2, m);
    }
  }

  lemma NothingLostYet(t: Db, cs: seq<BackupCert>, keyId: nat -> string)
    ensures !LostWithin(t, cs, keyId, 0)
  {
  }

  lemma DueAfterCas(t: Db, p: Payload, keyId: nat -> string, m: nat)
    requires m <= |CertStmts(p.certs, keyId)|
    ensures Run(Start(t), Map(CaStmt, p.caCerts) + CertStmts(p.certs, keyId)[..m]).keyDue <==>
      CasGoIn(t, p) && LostWithin(t, p.certs, keyId, m)
  {
    var cas, certs := Map(CaStmt, p.caCerts), CertStmts(p.certs, keyId)[..m];
    var s := Run(Start(t), cas);
    RunConcat(Start(t), cas, certs);
    CasExact(t, p);
    OtherStmtsLeaveKeys(Start(t), cas);
    if s.error.Some? {
      RunStops(s, certs);
    } else {
      DueWithinCerts(s, p.certs, keyId, m);
      SameLostWithin(t, s.db, p.certs, keyId, m);
    }
  }

  lemma SameLostWithin(a: Db, b: Db, cs: seq<BackupCert>, keyId: nat -> string, m: nat)
    requires a.certs == b.certs && a.keys == b.keys
    ensures LostWithin(a, cs, keyId, m) == LostWithin(b, cs, keyId, m)
    ensures forall k :: 0 <= k < |cs| ==> LostAt(a, cs, keyId, m, k) == LostAt(b, cs, keyId, m, k)
  {
    SameCertsSameConditions(a, b, cs, keyId);
    forall k | 0 <= k < |cs| ensures LostAt(a, cs, keyId, m, k) == LostAt(b, cs, keyId, m, k) {
      assert CertReached(a, cs, keyId, k) == CertReached(b, cs, keyId, k);
      assert KeyFits(a, cs, keyId, k) == KeyFits(b, cs, keyId, k);
    }
  }

  // Past the certificates only a taken id counts.
  lemma LostPastCerts(t: Db, cs: seq<BackupCert>, keyId: nat -> string, m: nat)
    requires m >= 2 * |cs|
    ensures LostWithin(t, cs, keyId, m) <==> TakenIdMet(t, cs, keyId, |cs|)
  {
    forall j | 0 <= j < |cs|
      ensures LostAt(t, cs, keyId, m, j) <==> CertReached(t, cs, keyId, j) && !KeyFits(t, cs, keyId, j)
    {
    }
  }

  function Back(p: Payload, d: Draws): seq<Stmt> {
    Map(SshKeyStmt, p.sshKeys) + Map(AppStmt, p.apps) + Map(RouteStmt, p.routes)
    + Map(SshRouteStmt, p.sshRoutes) + [PutAudit(AuditEntry(d))]
  }

  lemma ProgramParts(p: Payload, d: Draws)
    ensures Program(p, d) == Map(CaStmt, p.caCerts) + CertStmts(p.certs, d.keyId) + Back(p, d)
    ensures forall st :: st in Map(CaStmt, p.caCerts) ==> st.PutCa?
    ensures forall st :: st in Back(p, d) ==> !st.PutCert? && !st.PutKey?
    ensures |CertStmts(p.certs, d.keyId)| == 2 * |p.certs|
  {
    CertStmtsTake(p.certs, d.keyId, 0);
  }

  lemma DuePastCerts(t: Db, p: Payload, d: Draws, k: nat)
    requires k <= |Back(p, d)|
    ensures Run(Start(t), Map(CaStmt, p.caCerts) + CertStmts(p.certs, d.keyId) + Back(p, d)[..k]).keyDue <==>
      CasGoIn(t, p) && TakenIdMet(t, p.certs, d.keyId, |p.certs|)
  {
    var cas, certs := Map(CaStmt, p.caCerts), CertStmts(p.certs, d.keyId);
    ProgramParts(p, d);
    RunConcat(Start(t), cas + certs, Back(p, d)[..k]);
    OtherStmtsLeaveKeys(Run(Start(t), cas + certs), Back(p, d)[..k]);
    assert certs[..|certs|] == certs;
    DueAfterCas(t, p, d.keyId, |certs|);
    LostPastCerts(t, p.certs, d.keyId, |certs|);
  }

  lemma TakeOfThree<T>(a: seq<T>, b: seq<T>, c: seq<T>, n: nat)
    requires n <= |a + b + c|
    ensures (a + b + c)[..n] ==
      if n <= |a| then a[..n] else if n <= |a| + |b| then a + b[..n - |a|] else a + b + c[..n - |a| - |b|]
  {
  }

  lemma DueWithinCas(t: Db, p: Payload, d: Draws, n: nat)
    requires n <= |p.caCerts| && n <= |Program(p, d)|
    ensures Run(Start(t), Program(p, d)[..n]).keyDue <==> KeyLost(t, p, d.keyId, n)
  {
    var cas, certs := Map(CaStmt, p.caCerts), CertStmts(p.certs, d.keyId);
    ProgramParts(p, d);
    TakeOfThree(cas, certs, Back(p, d), n);
    OtherStmtsLeaveKeys(Start(t), cas[..n]);
  }

  lemma DueAmongCerts(t: Db, p: Payload, d: Draws, m: nat, n: nat)
    requires m <= 2 * |p.certs| && n == |p.caCerts| + m && n <= |Program(p, d)|
    ensures Run(Start(t), Program(p, d)[..n]).keyDue <==> KeyLost(t, p, d.keyId, n)
  {
    ProgramParts(p, d);
    DueAfterCas(t, p, d.keyId, m);
    NothingLostYet(t, p.certs, d.keyId);
    assert Program(p, d)[..n] == Map(CaStmt, p.caCerts) + CertStmts(p.certs, d.keyId)[..m] by {
      TakeOfThree(Map(CaStmt, p.caCerts), CertStmts(p.certs, d.keyId), Back(p, d), n);
    }
  }

  lemma ProgramPast(p: Payload, d: Draws, k: nat, n: nat)
    requires 0 < k <= |Back(p, d)| && n == |p.caCerts| + 2 * |p.certs| + k && n <= |Program(p, d)|
    ensures Program(p, d)[..n] == Map(CaStmt, p.caCerts) + CertStmts(p.certs, d.keyId) + Back(p, d)[..k]
  {
    ProgramParts(p, d);
    TakeOfThree(Map(CaStmt, p.caCerts), CertStmts(p.certs, d.keyId), Back(p, d), n);
  }

  lemma KeyLostPast(t: Db, p: Payload, keyId: nat -> string, n: nat)
    requires n > |p.caCerts| + 2 * |p.certs|
    ensures KeyLost(t, p, keyId, n) <==> CasGoIn(t, p) && TakenIdMet(t, p.certs, keyId, |p.certs|)
  {
    LostPastCerts(t, p.certs, keyId, n - |p.caCerts|);
  }

  lemma DueInBack(t: Db, p: Payload, d: Draws, k: nat, n: nat)
    requires 0 < k <= |Back(p, d)| && n == |p.caCerts| + 2 * |p.certs| + k && n <= |Program(p, d)|
    ensures Run(Start(t), Program(p, d)[..n]).keyDue <==> KeyLost(t, p, d.keyId, n)
  {
    ProgramPast(p, d, k, n);
    DuePastCerts(t, p, d, k);
    KeyLostPast(t, p, d.keyId, n);
  }

  lemma DueIff(t: Db, p: Payload, d: Draws, n: nat)
    requires n <= |Program(p, d)|
    ensures Run(Start(t), Program(p, d)[..n]).keyDue <==> KeyLost(t, p, d.keyId, n)
  {
    if n <= |p.caCerts| {
      DueWithinCas(t, p, d, n);
    } else if n <= |p.caCerts| + 2 * |p.certs| {
      DueAmongCerts(t, p, d, n - |p.caCerts|, n);
    } else {
      ProgramParts(p, d);
      DueInBack(t, p, d, n - |p.caCerts| - 2 * |p.certs|, n);
    }
  }

  // ---- which certificate it is -------------------------------------------------------------

  // What comes before a certificate that is reached has its key, and none is reached after one is lost.
  lemma OnlyOneLost(t: Db, cs: seq<BackupCert>, keyId: nat -> string, m: nat, j: nat, k: nat)
    requires j < |cs| && k < |cs| && j != k && LostAt(t, cs, keyId, m, k)
    ensures !LostAt(t, cs, keyId, m, j)
  {
    assert j < k ==> CertGoesIn(t, cs, keyId, j);
    assert k < j && CertsGoIn(t, cs, keyId, j) ==> CertGoesIn(t, cs, keyId, k);
  }

  lemma OwedInTurn(s: Progress, cs: seq<BackupCert>, keyId: nat -> string)
    requires s.error.None? && !s.keyDue && cs != []
    requires Run(s, CertStmts(cs[..|cs| - 1], keyId)).error.None?
    ensures var n := |cs| - 1;
      var e1 := Step(Run(s, CertStmts(cs[..n], keyId)), PutCert(cs[n]));
      var e2 := Step(e1, PutKey(cs[n], keyId(n)));
      (e1.keyDue ==> Owes(e1, cs[n].id)) && (e2.keyDue ==> Owes(e2, cs[n].id) && e2.error.Some?)
  {
    var n := |cs| - 1;
    CertPhase(s, cs[..n], keyId);
    TurnOwes(Run(s, CertStmts(cs[..n], keyId)), cs[n], keyId(n));
  }

  lemma TurnOwes(e: Progress, c: BackupCert, keyId: string)
    requires e.error.None? && !e.keyDue
    ensures var e1 := Step(e, PutCert(c));
      var e2 := Step(e1, PutKey(c, keyId));
      (e1.keyDue ==> Owes(e1, c.id)) && (e2.keyDue ==> Owes(e2, c.id) && e2.error.Some?)
  {
  }

  lemma {:induction false} OwedAfterCerts(s: Progress, cs: seq<BackupCert>, keyId: nat -> string) returns (k: nat)
    requires s.error.None? && !s.keyDue && Run(s, CertStmts(cs, keyId)).keyDue
    ensures var e := Run(s, CertStmts(cs, keyId));
      && k < |cs| && CertReached(s.db, cs, keyId, k) && !KeyFits(s.db, cs, keyId, k)
      && Owes(e, cs[k].id) && e.error.Some?
    decreases cs
  {
    var n := |cs| - 1;
    var e := Run(s, CertStmts(cs[..n], keyId));
    CertStmtsSnoc(s, cs, keyId);
    if e.error.None? {
      DueInTurn(s, cs, keyId);
      OwedInTurn(s, cs, keyId);
      k := n;
    } else {
      k := OwedAfterCerts(s, cs[..n], keyId);
      ReachedInFront(s.db, cs, keyId, n);
      CertsInFront(s.db, cs, keyId, n);
    }
  }

  // Between the statements of the last certificate.
  lemma OwedAtCert(s: Progress, cs: seq<BackupCert>, keyId: nat -> string) returns (k: nat)
    requires s.error.None? && !s.keyDue && cs != []
    requires Step(Run(s, CertStmts(cs[..|cs| - 1], keyId)), PutCert(cs[|cs| - 1])).keyDue
    ensures var e := Step(Run(s, CertStmts(cs[..|cs| - 1], keyId)), PutCert(cs[|cs| - 1]));
      k < |cs| && LostAt(s.db, cs, keyId, 2 * |cs| - 1, k) && Owes(e, cs[k].id)
  {
    var n := |cs| - 1;
    if Run(s, CertStmts(cs[..n], keyId)).error.None? {
      DueInTurn(s, cs, keyId);
      OwedInTurn(s, cs, keyId);
      k := n;
    } else {
      k := OwedAfterCerts(s, cs[..n], keyId);
      ReachedInFront(s.db, cs, keyId, n);
      CertsInFront(s.db, cs, keyId, n);
    }
  }

  lemma OwedWithinCerts(s: Progress, cs: seq<BackupCert>, keyId: nat -> string, m: nat) returns (k: nat)
    requires s.error.None? && !s.keyDue && m <= |CertStmts(cs, keyId)|
    requires Run(s, CertStmts(cs, keyId)[..m]).keyDue
    ensures k < |cs| && LostAt(s.db, cs, keyId, m, k) && Owes(Run(s, CertStmts(cs, keyId)[..m]), cs[k].id)
  {
    var j := m / 2;
    CertStmtsTake(cs, keyId, 0);
    CertStmtsTake(cs, keyId, j);
    if m == 2 * j {
      k := OwedAfterCerts(s, cs[..j], keyId);
      ReachedInFront(s.db, cs, keyId, j);
      CertsInFront(s.db, cs, keyId, j);
    } else {
      k := OwedInsidePair(s, cs, keyId, j, m);
    }
  }

  lemma OwedInsidePair(s: Progress, cs: seq<BackupCert>, keyId: nat -> string, j: nat, m: nat) returns (k: nat)
    requires s.error.None? && !s.keyDue && j < |cs| && m == 2 * j + 1 <= |CertStmts(cs, keyId)|
    requires Run(s, CertStmts(cs, keyId)[..m]).keyDue
    ensures k < |cs| && LostAt(s.db, cs, keyId, m, k) && Owes(Run(s, CertStmts(cs, keyId)[..m]), cs[k].id)
  {
    var p := CertStmts(cs, keyId);
    CertStmtsTake(cs, keyId, j);
    assert p[..m] == p[..2 * j] + [PutCert(cs[j])];
    RunSnoc(s, p[..2 * j], PutCert(cs[j]));
    assert cs[..j + 1][..j] == cs[..j];
    k := OwedAtCert(s, cs[..j + 1], keyId);
    ReachedInFront(s.db, cs, keyId, j + 1);
    CertsInFront(s.db, cs, keyId, j + 1);
  }

  // ---- the certificates without a key, after any part of any restore ------------------------

  lemma OwedAfterCas(t: Db, p: Payload, keyId: nat -> string, m: nat) returns (k: nat)
    requires m <= |CertStmts(p.certs, keyId)|
    requires Run(Start(t), Map(CaStmt, p.caCerts) + CertStmts(p.certs, keyId)[..m]).keyDue
    ensures k < |p.certs| && LostAt(t, p.certs, keyId, m, k)
    ensures Owes(Run(Start(t), Map(CaStmt, p.caCerts) + CertStmts(p.certs, keyId)[..m]), p.certs[k].id)
  {
    var cas, certs := Map(CaStmt, p.caCerts), CertStmts(p.certs, keyId)[..m];
    var s := Run(Start(t), cas);
    RunConcat(Start(t), cas, certs);
    CasExact(t, p);
    OtherStmtsLeaveKeys(Start(t), cas);
    if s.error.Some? {
      RunStops(s, certs);
    }
    k := OwedWithinCerts(s, p.certs, keyId, m);
    SameCertsSameConditions(t, s.db, p.certs, keyId);
  }

  lemma OwedPastCerts(t: Db, p: Payload, d: Draws, b: seq<Stmt>) returns (k: nat)
    requires forall st :: st in b ==> !st.PutCert? && !st.PutKey?
    requires Run(Start(t), Map(CaStmt, p.caCerts) + CertStmts(p.certs, d.keyId) + b).keyDue
    ensures k < |p.certs| && CertReached(t, p.certs, d.keyId, k) && !KeyFits(t, p.certs, d.keyId, k)
    ensures Owes(Run(Start(t), Map(CaStmt, p.caCerts) + CertStmts(p.certs, d.keyId) + b), p.certs[k].id)
  {
    var cas, certs := Map(CaStmt, p.caCerts), CertStmts(p.certs, d.keyId);
    var s := Run(Start(t), cas + certs);
    RunConcat(Start(t), cas + certs, b);
    OtherStmtsLeaveKeys(s, b);
    RunConcat(Start(t), cas, certs);
    CasExact(t, p);
    OtherStmtsLeaveKeys(Start(t), cas);
    var s1 := Run(Start(t), cas);
    if s1.error.Some? {
      RunStops(s1, certs);
    }
    k := OwedAfterCerts(s1, p.certs, d.keyId);
    SameCertsSameConditions(t, s1.db, p.certs, d.keyId);
    RunStops(s, b);
  }

  lemma OwedAmongCerts(t: Db, p: Payload, d: Draws, m: nat, n: nat) returns (k: nat)
    requires m <= 2 * |p.certs| && n == |p.caCerts| + m && n <= |Program(p, d)|
    requires Run(Start(t), Program(p, d)[..n]).keyDue
    ensures k < |p.certs| && LostAt(t, p.certs, d.keyId, m, k) && Owes(Run(Start(t), Program(p, d)[..n]), p.certs[k].id)
  {
    ProgramParts(p, d);
    TakeOfThree(Map(CaStmt, p.caCerts), CertStmts(p.certs, d.keyId), Back(p, d), n);
    assert Program(p, d)[..n] == Map(CaStmt, p.caCerts) + CertStmts(p.certs, d.keyId)[..m];
    k := OwedAfterCas(t, p, d.keyId, m);
  }

  lemma OwedInBack(t: Db, p: Payload, d: Draws, j: nat, n: nat) returns (k: nat)
    requires 0 < j <= |Back(p, d)| && n == |p.caCerts| + 2 * |p.certs| + j && n <= |Program(p, d)|
    requires Run(Start(t), Program(p, d)[..n]).keyDue
    ensures k < |p.certs| && LostAt(t, p.certs, d.keyId, n - |p.caCerts|, k)
    ensures Owes(Run(Start(t), Program(p, d)[..n]), p.certs[k].id)
  {
    ProgramParts(p, d);
    ProgramPast(p, d, j, n);
    assert forall st :: st in Back(p, d)[..j] ==> st in Back(p, d);
    k := OwedPastCerts(t, p, d, Back(p, d)[..j]);
  }

  lemma OwedIsLost(t: Db, p: Payload, d: Draws, n: nat) returns (k: nat)
    requires n <= |Program(p, d)| && Run(Start(t), Program(p, d)[..n]).keyDue
    ensures n > |p.caCerts| && k < |p.certs| && LostAt(t, p.certs, d.keyId, n - |p.caCerts|, k)
    ensures Owes(Run(Start(t), Program(p, d)[..n]), p.certs[k].id)
  {
    DueIff(t, p, d, n);
    ProgramParts(p, d);
    if n <= |p.caCerts| + 2 * |p.certs| {
      k := OwedAmongCerts(t, p, d, n - |p.caCerts|, n);
    } else {
      k := OwedInBack(t, p, d, n - |p.caCerts| - 2 * |p.certs|, n);
    }
  }

  // After any number of statements of any restore into any store the certificates without a key are
  // those that had none before and the one the inputs say is lost.
  lemma RestoreKeyless(t: Db, p: Payload, d: Draws, n: nat)
    requires SchemaOk(t) && n <= |Program(p, d)|
    ensures Keyless(Run(Start(t), Program(p, d)[..n]).db) == Keyless(t) + LostIds(t, p, d.keyId, n)
  {
    var s := Run(Start(t), Program(p, d)[..n]);
    ProgramPaired(p, d);
    PrefixKeyless(t, Program(p, d), n);
    DueIff(t, p, d, n);
    if s.keyDue {
      var k := OwedIsLost(t, p, d, n);
      OneLostId(t, p, d.keyId, n, k);
    } else {
      NoLostId(t, p, d.keyId, n);
    }
  }

  lemma OneLostId(t: Db, p: Payload, keyId: nat -> string, n: nat, k: nat)
    requires CasGoIn(t, p) && n > |p.caCerts| && k < |p.certs| && LostAt(t, p.certs, keyId, n - |p.caCerts|, k)
    ensures LostIds(t, p, keyId, n) == {p.certs[k].id}
  {
    var m: nat := n - |p.caCerts|;
    forall j | 0 <= j < |p.certs| && j != k ensures !LostAt(t, p.certs, keyId, m, j) {
      OnlyOneLost(t, p.certs, keyId, m, j, k);
    }
  }

  lemma NoLostId(t: Db, p: Payload, keyId: nat -> string, n: nat)
    requires !KeyLost(t, p, keyId, n)
    ensures LostIds(t, p, keyId, n) == {}
  {
  }

  // Past the certificates the number of statements does not matter.
  lemma LostIdsPastCerts(t: Db, p: Payload, keyId: nat -> string, n: nat, m: nat)
    requires n > |p.caCerts| + 2 * |p.certs| && m > |p.caCerts| + 2 * |p.certs|
    ensures LostIds(t, p, keyId, n) == LostIds(t, p, keyId, m)
  {
    var a, b := n - |p.caCerts|, m - |p.caCerts|;
    assert forall k :: 0 <= k < |p.certs| ==> LostAt(t, p.certs, keyId, a, k) == LostAt(t, p.certs, keyId, b, k);
  }

  // A whole restore loses a key only to a taken id: never with new ids.
  lemma WholeRestoreKeyless(t: Db, p: Payload, d: Draws)
    requires SchemaOk(t)
    ensures Keyless(Restore(t, p, d).db) == Keyless(t) + LostIds(t, p, d.keyId, |Program(p, d)|)
    ensures FreshKeys(t, d.keyId) ==> Keyless(Restore(t, p, d).db) == Keyless(t)
  {
    var n := |Program(p, d)|;
    assert Program(p, d)[..n] == Program(p, d);
    RestoreKeyless(t, p, d, n);
    ProgramParts(p, d);
    if FreshKeys(t, d.keyId) {
      assert forall k :: 0 <= k < |p.certs| ==> KeyFits(t, p.certs, d.keyId, k);
      NoLostId(t, p, d.keyId, n);
    }
  }

  // ---- restores that lose a key ------------------------------------------------------------

  function Carrying(c: BackupCert): Payload { Payload(1, 0, [c], [], [], [], [], []) }

  // Any certificate restored into an empty store, killed after the first statement, whatever is drawn.
  lemma CutRestoreLosesKey(c: BackupCert, d: Draws)
    requires Hex.Decode(c.certDer).Some?
    ensures Keyless(Run(Start(EMPTY_DB), Program(Carrying(c), d)[..1]).db) == {c.id}
  {
    FirstCertReached(c, d);
    ProgramParts(Carrying(c), d);
    OnlyOneKeyless(EMPTY_DB, Carrying(c), d, 1);
  }

  lemma OnlyOneKeyless(t: Db, p: Payload, d: Draws, n: nat)
    requires SchemaOk(t) && Keyless(t) == {} && |p.caCerts| < n <= |Program(p, d)|
    requires CasGoIn(t, p) && p.certs != [] && LostAt(t, p.certs, d.keyId, n - |p.caCerts|, 0)
    ensures Keyless(Run(Start(t), Program(p, d)[..n]).db) == {p.certs[0].id}
  {
    RestoreKeyless(t, p, d, n);
    OneLostId(t, p, d.keyId, n, 0);
  }

  lemma FirstCertReached(c: BackupCert, d: Draws)
    requires Hex.Decode(c.certDer).Some?
    ensures CasGoIn(EMPTY_DB, Carrying(c)) && LostAt(EMPTY_DB, Carrying(c).certs, d.keyId, 1, 0)
  {
  }

  // Any certificate restored beside another one, run to its end, when the other's key id is drawn again.
  lemma TakenIdLosesKey(held: CertRow, key: KeyRow, c: BackupCert, d: Draws)
    requires Hex.Decode(c.certDer).Some? && c.fingerprint != held.fingerprint && c.id != held.id
    requires key.certId == held.id && d.keyId(0) == key.id
    ensures var t := EMPTY_DB.(certs := [held], keys := [key]);
      Keyless(t) == {} && Keyless(Restore(t, Carrying(c), d).db) == {c.id}
  {
    var t, p := EMPTY_DB.(certs := [held], keys := [key]), Carrying(c);
    HolderKeyed(held, key);
    TakenIdReached(held, key, c, d);
    ProgramParts(p, d);
    assert |Program(p, d)| == 3;
    WholeRestoreKeyless(t, p, d);
    OneLostId(t, p, d.keyId, 3, 0);
  }

  lemma HolderKeyed(held: CertRow, key: KeyRow)
    requires key.certId == held.id
    ensures var t := EMPTY_DB.(certs := [held], keys := [key]); SchemaOk(t) && Keyless(t) == {}
  {
    var t := EMPTY_DB.(certs := [held], keys := [key]);
    assert t.keys[0] in t.keys && t.certs[0] in t.certs;
    assert HasCert(t, held.id) && HasKeyFor(t, held.id);
  }

  lemma TakenIdReached(held: CertRow, key: KeyRow, c: BackupCert, d: Draws)
    requires Hex.Decode(c.certDer).Some? && c.fingerprint != held.fingerprint && c.id != held.id
    requires d.keyId(0) == key.id
    ensures var t := EMPTY_DB.(certs := [held], keys := [key]);
      CasGoIn(t, Carrying(c)) && LostAt(t, Carrying(c).certs, d.keyId, 3, 0)
  {
    var t := EMPTY_DB.(certs := [held], keys := [key]);
    assert t.keys[0] in t.keys;
    assert HasKey(t, key.id);
  }
}
