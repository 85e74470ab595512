/** Running a restore again after it was killed part way. */
module Rerun {
  import opened Wrappers
  import opened Seqs
  import opened Schema
  import opened Backup
  import opened RestoreRuns
  import opened RestoreExact
  import opened KeyLoss

  predicate SameKeysButIds(a: seq<KeyRow>, b: seq<KeyRow>) {
    |a| == |b| && forall i :: 0 <= i < |a| ==> a[i].(id := b[i].id) == b[i]
  }

  // Row for row the same, but for the ids drawn for keys, and the log.
  predicate SameTables(a: Db, b: Db) {
    && a.certs == b.certs && SameKeysButIds(a.keys, b.keys) && a.sshKeys == b.sshKeys && a.caCerts == b.caCerts
    && a.apps == b.apps && a.routes == b.routes && a.sshRoutes == b.sshRoutes && a.integrity == b.integrity
  }

  predicate SameButIds(a: Stmt, b: Stmt) { a == b || (a.PutKey? && b.PutKey? && a.owner == b.owner) }

  // ---- the same statements on stores that differ in key ids ------------------------------

  predicate Alike(a: Progress, b: Progress) {
    a.error.None? && b.error.None? && a.keyDue == b.keyDue && SameTables(a.db, b.db)
  }

  lemma StepAlike(a: Progress, b: Progress, st: Stmt, other: Stmt)
    requires Alike(a, b) && SameButIds(st, other) && !st.PutAudit? && Step(a, st).error.None?
    requires other.PutKey? ==> !HasKey(b.db, other.keyId)
    ensures Alike(Step(a, st), Step(b, other))
    ensures Step(b, other).db.keys == b.db.keys
      || (other.PutKey? && Step(b, other).db.keys == b.db.keys + [UnpackKey(other.owner, other.keyId)])
  {
    if st.PutKey? {
      KeyStepAlike(a, b, st, other);
    } else {
      assert forall id :: HasCert(a.db, id) <==> HasCert(b.db, id);
    }
  }

  lemma KeyStepAlike(a: Progress, b: Progress, st: Stmt, other: Stmt)
    requires Alike(a, b) && SameButIds(st, other) && st.PutKey? && Step(a, st).error.None?
    requires !HasKey(b.db, other.keyId)
    ensures Alike(Step(a, st), Step(b, other))
    ensures Step(b, other).db.keys == b.db.keys
      || Step(b, other).db.keys == b.db.keys + [UnpackKey(other.owner, other.keyId)]
  {
    assert HasCert(a.db, st.owner.id) <==> HasCert(b.db, st.owner.id);
    assert UnpackKey(st.owner, st.keyId).(id := other.keyId) == UnpackKey(other.owner, other.keyId);
  }

  // The key ids drawn by a list of statements are new and all different.
  predicate DrawsNew(db: Db, q: seq<Stmt>) {
    && (forall i :: 0 <= i < |q| && q[i].PutKey? ==> !HasKey(db, q[i].keyId))
    && (forall i, j :: 0 <= i < j < |q| && q[i].PutKey? && q[j].PutKey? ==> q[i].keyId != q[j].keyId)
  }

  predicate KeysFrom(db: Db, e: Db, q: seq<Stmt>, n: nat)
    requires n <= |q|
  {
    forall k :: k in e.keys ==> k in db.keys || exists i :: 0 <= i < n && q[i].PutKey? && q[i].keyId == k.id
  }

  lemma NextIsNew(db: Db, e: Db, q: seq<Stmt>, n: nat)
    requires n < |q| && DrawsNew(db, q) && KeysFrom(db, e, q, n) && q[n].PutKey?
    ensures !HasKey(e, q[n].keyId)
  {
    forall k | k in e.keys ensures k.id != q[n].keyId {
      assert k in db.keys ==> HasKey(db, k.id);
    }
  }

  predicate Similar(p: seq<Stmt>, q: seq<Stmt>) {
    |p| == |q| && forall i :: 0 <= i < |p| ==> SameButIds(p[i], q[i]) && !p[i].PutAudit?
  }

  lemma {:induction false} RunAlike(a: Progress, b: Progress, p: seq<Stmt>, q: seq<Stmt>, n: nat)
    requires n <= |p| && Alike(a, b) && Similar(p, q) && DrawsNew(b.db, q) && Run(a, p[..n]).error.None?
    ensures Alike(Run(a, p[..n]), Run(b, q[..n])) && KeysFrom(b.db, Run(b, q[..n]).db, q, n)
  {
    if n > 0 {
      assert p[..n] == p[..n - 1] + [p[n - 1]] && q[..n] == q[..n - 1] + [q[n - 1]];
      RunSnoc(a, p[..n - 1], p[n - 1]);
      RunSnoc(b, q[..n - 1], q[n - 1]);
      RunAlike(a, b, p, q, n - 1);
      if q[n - 1].PutKey? {
        NextIsNew(b.db, Run(b, q[..n - 1]).db, q, n - 1);
      }
      StepAlike(Run(a, p[..n - 1]), Run(b, q[..n - 1]), p[n - 1], q[n - 1]);
    }
  }

  // ---- two draws for one payload ------------------------------------------------------------

  lemma {:induction false} CertStmtsSimilar(cs: seq<BackupCert>, a: nat -> string, b: nat -> string)
    ensures Similar(CertStmts(cs, a), CertStmts(cs, b))
  {
    if cs != [] {
      CertStmtsSimilar(cs[..|cs| - 1], a, b);
    }
  }

  lemma SimilarConcat(p: seq<Stmt>, q: seq<Stmt>, x: seq<Stmt>)
    requires Similar(p, q) && forall st :: st in x ==> !st.PutAudit?
    ensures Similar(p + x, q + x) && Similar(x + p, x + q)
  {
  }

  function AfterCerts(p: Payload): seq<Stmt> {
    Map(SshKeyStmt, p.sshKeys) + Map(AppStmt, p.apps) + Map(RouteStmt, p.routes) + Map(SshRouteStmt, p.sshRoutes)
  }

  lemma InsertsParts(p: Payload, keyId: nat -> string)
    ensures Inserts(p, keyId) == Map(CaStmt, p.caCerts) + CertStmts(p.certs, keyId) + AfterCerts(p)
    ensures forall st :: st in Map(CaStmt, p.caCerts) + AfterCerts(p) ==> !st.PutAudit? && !st.PutKey?
  {
  }

  lemma InsertsSimilar(p: Payload, a: nat -> string, b: nat -> string)
    ensures Similar(Inserts(p, a), Inserts(p, b))
  {
    InsertsParts(p, a);
    InsertsParts(p, b);
    CertStmtsSimilar(p.certs, a, b);
    var cas := Map(CaStmt, p.caCerts);
    assert forall st :: st in cas ==> st in cas + AfterCerts(p);
    assert forall st :: st in AfterCerts(p) ==> st in cas + AfterCerts(p);
    SimilarConcat(CertStmts(p.certs, a), CertStmts(p.certs, b), cas);
    SimilarConcat(cas + CertStmts(p.certs, a), cas + CertStmts(p.certs, b), AfterCerts(p));
  }

  lemma {:induction false} CertStmtsDraw(db: Db, cs: seq<BackupCert>, keyId: nat -> string)
    requires FreshKeys(db, keyId)
    ensures DrawsNew(db, CertStmts(cs, keyId))
    ensures forall st :: st in CertStmts(cs, keyId) && st.PutKey? ==> exists i: nat :: i < |cs| && st.keyId == keyId(i)
  {
    if cs != [] {
      var n := |cs| - 1;
      var front := CertStmts(cs[..n], keyId);
      CertStmtsDraw(db, cs[..n], keyId);
      assert forall st :: st in front && st.PutKey? ==> st.keyId != keyId(n);
      assert CertStmts(cs, keyId) == front + [PutCert(cs[n]), PutKey(cs[n], keyId(n))];
      assert forall i :: 0 <= i < |front| ==> CertStmts(cs, keyId)[i] == front[i] && front[i] in front;
    }
  }

  lemma DrawsNewAround(db: Db, x: seq<Stmt>, q: seq<Stmt>, y: seq<Stmt>)
    requires DrawsNew(db, q)
    requires (forall st :: st in x ==> !st.PutKey?) && (forall st :: st in y ==> !st.PutKey?)
    ensures DrawsNew(db, x + q + y)
  {
    var all := x + q + y;
    assert forall i :: 0 <= i < |x| ==> all[i] == x[i] && x[i] in x;
    assert forall i :: |x| + |q| <= i < |all| ==> all[i] == y[i - |x| - |q|] && y[i - |x| - |q|] in y;
    assert forall i :: |x| <= i < |x| + |q| ==> all[i] == q[i - |x|];
  }

  lemma InsertsDrawNew(db: Db, p: Payload, keyId: nat -> string)
    requires FreshKeys(db, keyId)
    ensures DrawsNew(db, Inserts(p, keyId))
  {
    InsertsParts(p, keyId);
    CertStmtsDraw(db, p.certs, keyId);
    var cas := Map(CaStmt, p.caCerts);
    assert forall st :: st in cas ==> st in cas + AfterCerts(p);
    assert forall st :: st in AfterCerts(p) ==> st in cas + AfterCerts(p);
    DrawsNewAround(db, cas, CertStmts(p.certs, keyId), AfterCerts(p));
  }

  // ---- the rerun ---------------------------------------------------------------------------

  lemma SettledFront(t: Db, p: seq<Stmt>, q: seq<Stmt>, n: nat)
    requires n <= |p| && Similar(p, q) && Run(Start(t), p[..n]).error.None?
    ensures var e := Run(Start(Run(Start(t), p[..n]).db), q[..n]);
      e.db == Run(Start(t), p[..n]).db && e.error.None? && !e.keyDue
  {
    var s := Run(Start(t), p[..n]);
    RunSettles(Start(t), p[..n]);
    forall st | st in q[..n] ensures Settled(s.db, st) && !st.PutAudit? {
      var i :| 0 <= i < n && q[i] == st;
      assert p[i] == p[..n][i] && p[..n][i] in p[..n];
      assert SameButIds(p[i], q[i]);
    }
    SettledRunIsIdle(Start(s.db), q[..n]);
  }

  lemma SimilarRest(p: seq<Stmt>, q: seq<Stmt>, n: nat)
    requires n <= |p| && Similar(p, q)
    ensures Similar(p[n..], q[n..])
  {
    assert forall i :: 0 <= i < |p[n..]| ==> p[n..][i] == p[n + i] && q[n..][i] == q[n + i];
  }

  lemma DrawsNewRest(db: Db, q: seq<Stmt>, n: nat)
    requires n <= |q| && DrawsNew(db, q)
    ensures DrawsNew(db, q[n..])
  {
    assert forall i :: 0 <= i < |q[n..]| ==> q[n..][i] == q[n + i];
  }

  lemma RunAllAlike(a: Progress, b: Progress, p: seq<Stmt>, q: seq<Stmt>)
    requires Alike(a, b) && Similar(p, q) && DrawsNew(b.db, q) && Run(a, p).error.None?
    ensures Alike(Run(a, p), Run(b, q))
  {
    assert p[..|p|] == p && q[..|q|] == q;
    RunAlike(a, b, p, q, |p|);
  }

  lemma RunInTwo(s: Progress, p: seq<Stmt>, n: nat)
    requires n <= |p|
    ensures Run(s, p) == Run(Run(s, p[..n]), p[n..])
  {
    assert p == p[..n] + p[n..];
    RunConcat(s, p[..n], p[n..]);
  }

  // The statements already executed are idle; the rest runs as it would have.
  lemma RestContinues(t: Db, p: seq<Stmt>, q: seq<Stmt>, n: nat)
    requires n <= |p| && Similar(p, q) && Run(Start(t), p).error.None?
    requires var s := Run(Start(t), p[..n]); s.error.None? && !s.keyDue && DrawsNew(s.db, q)
    ensures Alike(Run(Start(t), p), Run(Start(Run(Start(t), p[..n]).db), q))
  {
    var s := Run(Start(t), p[..n]);
    SettledFront(t, p, q, n);
    RunInTwo(Start(t), p, n);
    RunInTwo(Start(s.db), q, n);
    SimilarRest(p, q, n);
    DrawsNewRest(s.db, q, n);
    RunAllAlike(s, Run(Start(s.db), q[..n]), p[n..], q[n..]);
  }

  lemma {:induction false} PrefixSucceeds(s: Progress, p: seq<Stmt>, n: nat)
    requires n <= |p| && Run(s, p).error.None?
    ensures Run(s, p[..n]).error.None?
  {
    if n < |p| {
      PrefixSucceeds(s, p[..|p| - 1], n);
      assert p[..|p| - 1][..n] == p[..n];
    } else {
      assert p[..n] == p;
    }
  }

  lemma InsertsSucceed(t: Db, p: Payload, d: Draws, n: nat)
    requires Restore(t, p, d).error.None? && n <= |Inserts(p, d.keyId)|
    ensures var all := Inserts(p, d.keyId);
      && Run(Start(t), all).error.None? && Run(Start(t), all[..n]).error.None?
      && Program(p, d)[..n] == all[..n]
      && SameTables(Restore(t, p, d).db, Run(Start(t), all).db)
  {
    RunSnoc(Start(t), Inserts(p, d.keyId), PutAudit(AuditEntry(d)));
    PrefixSucceeds(Start(t), Inserts(p, d.keyId), n);
  }

  // Killed where no key was due, and run again: the tables of one uninterrupted restore.
  lemma RerunCompletes(t: Db, p: Payload, d: Draws, again: Draws, n: nat)
    requires Restore(t, p, d).error.None? && n <= |Inserts(p, d.keyId)|
    requires var s := Run(Start(t), Program(p, d)[..n]);
      !s.keyDue && FreshKeys(s.db, again.keyId) && !HasAudit(s.db, again.auditId)
    ensures var r := Restore(Run(Start(t), Program(p, d)[..n]).db, p, again);
      r.error.None? && SameTables(Restore(t, p, d).db, r.db)
  {
    InsertsSucceed(t, p, d, n);
    var s := Run(Start(t), Program(p, d)[..n]);
    InsertsSimilar(p, d.keyId, again.keyId);
    InsertsDrawNew(s.db, p, again.keyId);
    RestContinues(t, Inserts(p, d.keyId), Inserts(p, again.keyId), n);
    LogEnds(s.db, p, again);
    SameTablesThrough(Restore(t, p, d).db, Run(Start(t), Inserts(p, d.keyId)).db,
                      Run(Start(s.db), Inserts(p, again.keyId)).db, Restore(s.db, p, again).db);
  }

  lemma LogEnds(t: Db, p: Payload, d: Draws)
    requires Run(Start(t), Inserts(p, d.keyId)).error.None? && !HasAudit(t, d.auditId)
    ensures Restore(t, p, d).error.None? && SameTables(Run(Start(t), Inserts(p, d.keyId)).db, Restore(t, p, d).db)
  {
    RunSnoc(Start(t), Inserts(p, d.keyId), PutAudit(AuditEntry(d)));
    AuditUntouched(t, p, d.keyId);
  }

  lemma SameTablesThrough(a: Db, b: Db, c: Db, d: Db)
    requires SameTables(a, b) && SameTables(b, c) && SameTables(c, d)
    ensures SameTables(a, d)
  {
    forall i | 0 <= i < |a.keys| ensures a.keys[i].(id := d.keys[i].id) == d.keys[i] {
      assert b.keys[i] == a.keys[i].(id := b.keys[i].id) && c.keys[i] == b.keys[i].(id := c.keys[i].id);
    }
  }

  lemma AuditUntouched(t: Db, p: Payload, keyId: nat -> string)
    ensures Run(Start(t), Inserts(p, keyId)).db.audit == t.audit
  {
    InsertsParts(p, keyId);
    CertStmtsMembers(p.certs, keyId);
    NoAudit(Start(t), Inserts(p, keyId));
  }

  lemma {:induction false} NoAudit(s: Progress, p: seq<Stmt>)
    requires forall st :: st in p ==> !st.PutAudit?
    ensures Run(s, p).db.audit == s.db.audit
  {
    if p != [] {
      assert p == p[..|p| - 1] + [p[|p| - 1]];
      NoAudit(s, p[..|p| - 1]);
    }
  }

  lemma SameTablesSameKeyless(a: Db, b: Db)
    requires SameTables(a, b)
    ensures Keyless(a) == Keyless(b)
  {
    forall id ensures HasKeyFor(a, id) <==> HasKeyFor(b, id) {
      if k :| k in a.keys && k.certId == id {
        var i :| 0 <= i < |a.keys| && a.keys[i] == k;
        assert b.keys[i] in b.keys && b.keys[i].certId == id;
      }
      if k :| k in b.keys && k.certId == id {
        var i :| 0 <= i < |b.keys| && b.keys[i] == k;
        assert a.keys[i] in a.keys && a.keys[i].certId == id;
      }
    }
  }

  // Killed between a certificate and its key, and run again: the certificate is skipped by its
  // fingerprint and stays without its key, which the backup holds.
  lemma RerunForgetsKey(t: Db, p: Payload, d: Draws, again: Draws, n: nat)
    requires SchemaOk(t) && Restore(t, p, d).error.None? && n <= |Inserts(p, d.keyId)|
    requires Run(Start(t), Program(p, d)[..n]).keyDue
    ensures !SameTables(Restore(t, p, d).db, Restore(Run(Start(t), Program(p, d)[..n]).db, p, again).db)
  {
    var s := Run(Start(t), Program(p, d)[..n]);
    var r := Restore(s.db, p, again);
    ProgramPaired(p, d);
    PrefixKeyless(t, Program(p, d), n);
    RunKeepsSchema(Start(t), Program(p, d)[..n]);
    WholeRestoreKeyless(s.db, p, again);
    WholeRestoreKeyless(t, p, d);
    NothingLostInSuccess(t, p, d);
    var id := s.db.certs[|s.db.certs| - 1].id;
    assert id in Keyless(r.db);
    assert id !in Keyless(t) by {
      assert forall c :: c in t.certs ==> HasCert(t, c.id);
    }
    if SameTables(Restore(t, p, d).db, r.db) {
      SameTablesSameKeyless(Restore(t, p, d).db, r.db);
    }
  }

  lemma NothingLostInSuccess(t: Db, p: Payload, d: Draws)
    requires Restore(t, p, d).error.None?
    ensures LostIds(t, p, d.keyId, |Program(p, d)|) == {}
  {
    RestoreSucceedsIff(t, p, d);
    NoTakenId(t, p.certs, d.keyId, |p.certs|);
    ProgramParts(p, d);
    KeyLostPast(t, p, d.keyId, |Program(p, d)|);
    NoLostId(t, p, d.keyId, |Program(p, d)|);
  }

  // A restore that would succeed is killed after n statements and run again with new ids: it succeeds
  // with the tables of an uninterrupted one exactly when the kill did not fall between a certificate
  // and its key.
  lemma RerunCompletesIff(t: Db, p: Payload, d: Draws, again: Draws, n: nat)
    requires SchemaOk(t) && Restore(t, p, d).error.None? && n <= |Inserts(p, d.keyId)|
    requires var s := Run(Start(t), Program(p, d)[..n]);
      FreshKeys(s.db, again.keyId) && !HasAudit(s.db, again.auditId)
    ensures var r := Restore(Run(Start(t), Program(p, d)[..n]).db, p, again);
      r.error.None? && SameTables(Restore(t, p, d).db, r.db) <==> !KeyLost(t, p, d.keyId, n)
  {
    DueIff(t, p, d, n);
    if Run(Start(t), Program(p, d)[..n]).keyDue {
      RerunForgetsKey(t, p, d, again, n);
    } else {
      RerunCompletes(t, p, d, again, n);
    }
  }
}
