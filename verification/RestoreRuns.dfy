/** What every restore keeps, whatever the payload and wherever it stops. */
module RestoreRuns {
  import opened Seqs
  import opened Schema
  import opened Backup

  // b is a with rows appended; integrity records are left alone.
  predicate Extends(a: Db, b: Db) {
    && a.certs <= b.certs && a.keys <= b.keys && a.sshKeys <= b.sshKeys && a.caCerts <= b.caCerts
    && a.apps <= b.apps && a.routes <= b.routes && a.sshRoutes <= b.sshRoutes
    && a.integrity == b.integrity && a.audit <= b.audit
  }

  // ---- only adds -------------------------------------------------------------

  predicate PutsCredential(st: Stmt) { st.PutCa? || st.PutCert? || st.PutKey? || st.PutSshKey? }

  lemma CredentialExtends(s: Progress, st: Stmt)
    requires PutsCredential(st)
    ensures Extends(s.db, Step(s, st).db)
  {
  }

  lemma OtherExtends(s: Progress, st: Stmt)
    requires !PutsCredential(st)
    ensures Extends(s.db, Step(s, st).db)
  {
  }

  lemma StepExtends(s: Progress, st: Stmt)
    ensures Extends(s.db, Step(s, st).db)
  {
    if PutsCredential(st) {
      CredentialExtends(s, st);
    } else {
      OtherExtends(s, st);
    }
  }

  lemma ExtendsTransitive(a: Db, b: Db, c: Db)
    requires Extends(a, b) && Extends(b, c)
    ensures Extends(a, c)
  {
  }

  lemma {:induction false} RunExtends(s: Progress, p: seq<Stmt>)
    ensures Extends(s.db, Run(s, p).db)
  {
    if p != [] {
      var e := Run(s, p[..|p| - 1]);
      RunExtends(s, p[..|p| - 1]);
      StepExtends(e, p[|p| - 1]);
      ExtendsTransitive(s.db, e.db, Run(s, p).db);
    }
  }

  // After any number of statements every earlier row is still there, unchanged and in place.
  lemma RestoreOnlyAdds(db: Db, payload: Payload, d: Draws, n: nat)
    requires n <= |Program(payload, d)|
    ensures Extends(db, Run(Start(db), Program(payload, d)[..n]).db)
  {
    RunExtends(Start(db), Program(payload, d)[..n]);
  }

  // ---- the schema's constraints ----------------------------------------------

  lemma RefsGrow(a: Db, b: Db)
    requires Extends(a, b)
    ensures forall id :: HasCert(a, id) ==> HasCert(b, id)
    ensures forall fp :: HasFingerprint(a, fp) ==> HasFingerprint(b, fp)
    ensures forall id :: HasSshKey(a, id) ==> HasSshKey(b, id)
    ensures forall fp :: HasCaFingerprint(a, fp) ==> HasCaFingerprint(b, fp)
    ensures forall id :: HasApp(a, id) ==> HasApp(b, id)
    ensures forall path :: HasExe(a, path) ==> HasExe(b, path)
    ensures forall id :: HasRoute(a, id) ==> HasRoute(b, id)
    ensures forall id :: HasSshRoute(a, id) ==> HasSshRoute(b, id)
    ensures forall r :: RouteRefsOk(a, r) ==> RouteRefsOk(b, r)
    ensures forall r :: SshRouteRefsOk(a, r) ==> SshRouteRefsOk(b, r)
  {
    PrefixMembers(a.certs, b.certs);
    PrefixMembers(a.sshKeys, b.sshKeys);
    PrefixMembers(a.caCerts, b.caCerts);
    PrefixMembers(a.apps, b.apps);
    PrefixMembers(a.routes, b.routes);
    PrefixMembers(a.sshRoutes, b.sshRoutes);
    assert forall id :: HasCert(a, id) ==> HasCert(b, id);
    assert forall id :: HasApp(a, id) ==> HasApp(b, id);
    assert forall id :: HasSshKey(a, id) ==> HasSshKey(b, id);
  }

  lemma PrefixMembers<T(!new)>(s: seq<T>, t: seq<T>)
    requires s <= t
    ensures forall x :: x in s ==> x in t
  {
    assert t == s + t[|s|..];
  }

  lemma InsertCertKeepsSchema(db: Db, r: CertRow)
    requires SchemaOk(db) && InsertCert(db, r).Ok?
    ensures SchemaOk(InsertCert(db, r).value)
  {
    AppendDistinct(CertId, db.certs, r);
    AppendDistinct(CertFingerprint, db.certs, r);
    RefsGrow(db, InsertCert(db, r).value);
  }

  lemma InsertKeyKeepsSchema(db: Db, r: KeyRow)
    requires SchemaOk(db) && InsertKey(db, r).Ok?
    ensures SchemaOk(InsertKey(db, r).value)
  {
    AppendDistinct(KeyId, db.keys, r);
    RefsGrow(db, InsertKey(db, r).value);
  }

  lemma InsertSshKeyKeepsSchema(db: Db, r: SshKeyRow)
    requires SchemaOk(db) && InsertSshKey(db, r).Ok?
    ensures SchemaOk(InsertSshKey(db, r).value)
  {
    AppendDistinct(SshKeyId, db.sshKeys, r);
    RefsGrow(db, InsertSshKey(db, r).value);
  }

  lemma InsertCaKeepsSchema(db: Db, r: CaRow)
    requires SchemaOk(db) && InsertCa(db, r).Ok?
    ensures SchemaOk(InsertCa(db, r).value)
  {
    AppendDistinct(CaId, db.caCerts, r);
    AppendDistinct(CaFingerprint, db.caCerts, r);
    RefsGrow(db, InsertCa(db, r).value);
  }

  lemma InsertAppKeepsSchema(db: Db, r: AppRow)
    requires SchemaOk(db) && InsertApp(db, r).Ok?
    ensures SchemaOk(InsertApp(db, r).value)
  {
    AppendDistinct(AppId, db.apps, r);
    AppendDistinct(AppExe, db.apps, r);
    RefsGrow(db, InsertApp(db, r).value);
  }

  lemma InsertRouteKeepsSchema(db: Db, r: RouteRow)
    requires SchemaOk(db) && InsertRoute(db, r).Ok?
    ensures SchemaOk(InsertRoute(db, r).value)
  {
    AppendDistinct(RouteId, db.routes, r);
    RefsGrow(db, InsertRoute(db, r).value);
  }

  lemma InsertSshRouteKeepsSchema(db: Db, r: SshRouteRow)
    requires SchemaOk(db) && InsertOrIgnoreSshRoute(db, r).Ok?
    ensures SchemaOk(InsertOrIgnoreSshRoute(db, r).value)
  {
    if !HasSshRoute(db, r.id) {
      AppendDistinct(SshRouteId, db.sshRoutes, r);
      RefsGrow(db, InsertOrIgnoreSshRoute(db, r).value);
    }
  }

  lemma InsertAuditKeepsSchema(db: Db, r: AuditRow)
    requires SchemaOk(db) && InsertAudit(db, r).Ok?
    ensures SchemaOk(InsertAudit(db, r).value)
  {
    AppendDistinct(AuditId, db.audit, r);
    RefsGrow(db, InsertAudit(db, r).value);
  }

  lemma StepKeepsSchema(s: Progress, st: Stmt)
    requires SchemaOk(s.db)
    ensures SchemaOk(Step(s, st).db)
  {
    if Step(s, st).db != s.db {
      match st
      case PutCa(ca) => InsertCaKeepsSchema(s.db, UnpackCa(ca));
      case PutCert(c) => InsertCertKeepsSchema(s.db, UnpackCert(c));
      case PutKey(c, keyId) => InsertKeyKeepsSchema(s.db, UnpackKey(c, keyId));
      case PutSshKey(k) => InsertSshKeyKeepsSchema(s.db, UnpackSshKey(k));
      case PutApp(a) => InsertAppKeepsSchema(s.db, a);
      case PutRoute(r) => InsertRouteKeepsSchema(s.db, r);
      case PutSshRoute(r) => InsertSshRouteKeepsSchema(s.db, r);
      case PutAudit(row) => InsertAuditKeepsSchema(s.db, row);
    }
  }

  // Any statement list, failing or not, keeps keys distinct and references resolved.
  lemma {:induction false} RunKeepsSchema(s: Progress, p: seq<Stmt>)
    requires SchemaOk(s.db)
    ensures SchemaOk(Run(s, p).db)
  {
    if p != [] {
      RunKeepsSchema(s, p[..|p| - 1]);
      StepKeepsSchema(Run(s, p[..|p| - 1]), p[|p| - 1]);
    }
  }

  // ---- one key row per certificate -------------------------------------------

  // Each certificate statement is followed at once by its key statement.
  predicate Paired(p: seq<Stmt>) {
    forall i :: 0 <= i < |p| && p[i].PutCert? ==>
      i + 1 < |p| && p[i + 1].PutKey? && p[i + 1].owner == p[i].cert
  }

  lemma {:induction false} CertStmtsPaired(cs: seq<BackupCert>, keyId: nat -> string)
    ensures Paired(CertStmts(cs, keyId))
  {
    if cs != [] {
      CertStmtsPaired(cs[..|cs| - 1], keyId);
    }
  }

  lemma ProgramPaired(payload: Payload, d: Draws)
    ensures Paired(Program(payload, d))
  {
    CertStmtsPaired(payload.certs, d.keyId);
  }

  // What a restore still owes is the key of the last certificate.
  predicate Owes(s: Progress, id: string) {
    s.db.certs != [] && s.db.certs[|s.db.certs| - 1].id == id
  }

  // The certificates without a key are those that had none before, and the one whose key is due.
  predicate KeylessSoFar(t: Db, s: Progress, p: seq<Stmt>) {
    if s.keyDue then
      && s.db.certs != []
      && var id := s.db.certs[|s.db.certs| - 1].id;
      && !HasCert(t, id) && Keyless(s.db) == Keyless(t) + {id}
      && (s.error.None? ==> p != [] && p[|p| - 1].PutCert? && p[|p| - 1].cert.id == id)
    else Keyless(s.db) == Keyless(t)
  }

  lemma CertAddsKeyless(db: Db, c: CertRow)
    requires RefsResolve(db) && !HasCert(db, c.id)
    ensures Keyless(db.(certs := db.certs + [c])) == Keyless(db) + {c.id}
  {
    var db1 := db.(certs := db.certs + [c]);
    forall k | k in db.keys ensures k.certId != c.id {
      assert HasCert(db, k.certId);
    }
    assert c in db1.certs;
    assert forall x :: x in db1.certs <==> x in db.certs || x == c;
    assert forall id :: HasKeyFor(db1, id) <==> HasKeyFor(db, id);
  }

  lemma KeyTakesKeyless(db: Db, k: KeyRow)
    ensures Keyless(db.(keys := db.keys + [k])) == Keyless(db) - {k.certId}
  {
    var db1 := db.(keys := db.keys + [k]);
    assert forall x :: x in db1.keys <==> x in db.keys || x == k;
    forall id ensures HasKeyFor(db1, id) <==> HasKeyFor(db, id) || id == k.certId {
      assert k in db1.keys && KeyCert(k) == k.certId;
    }
  }

  lemma SameKeyless(a: Db, b: Db)
    requires a.certs == b.certs && a.keys == b.keys
    ensures Keyless(a) == Keyless(b)
  {
    assert forall id :: HasKeyFor(a, id) <==> HasKeyFor(b, id);
  }

  lemma CertStepKeyless(t: Db, s: Progress, p: seq<Stmt>, st: Stmt)
    requires SchemaOk(s.db) && Extends(t, s.db) && KeylessSoFar(t, s, p) && st.PutCert?
    requires s.keyDue ==> s.error.Some?
    ensures KeylessSoFar(t, Step(s, st), p + [st])
  {
    var e := Step(s, st);
    if e.db != s.db {
      CertAddsKeyless(s.db, UnpackCert(st.cert));
      RefsGrow(t, s.db);
      SameKeyless(e.db, s.db.(certs := s.db.certs + [UnpackCert(st.cert)]));
    }
  }

  lemma KeyStepKeyless(t: Db, s: Progress, p: seq<Stmt>, st: Stmt)
    requires KeylessSoFar(t, s, p) && st.PutKey?
    requires p != [] && p[|p| - 1].PutCert? ==> st.owner == p[|p| - 1].cert
    ensures KeylessSoFar(t, Step(s, st), p + [st])
  {
    var e := Step(s, st);
    if e.db != s.db {
      var k := UnpackKey(st.owner, st.keyId);
      KeyTakesKeyless(s.db, k);
      SameKeyless(e.db, s.db.(keys := s.db.keys + [k]));
      assert forall c :: c in t.certs ==> HasCert(t, c.id);
    }
  }

  lemma OtherStepKeyless(t: Db, s: Progress, p: seq<Stmt>, st: Stmt)
    requires KeylessSoFar(t, s, p) && !st.PutCert? && !st.PutKey?
    requires s.keyDue ==> s.error.Some?
    ensures KeylessSoFar(t, Step(s, st), p + [st])
  {
    SameKeyless(s.db, Step(s, st).db);
  }

  // After any number of paired statements.
  lemma {:induction false} PrefixKeyless(t: Db, p: seq<Stmt>, n: nat)
    requires SchemaOk(t) && Paired(p) && n <= |p|
    ensures KeylessSoFar(t, Run(Start(t), p[..n]), p[..n])
  {
    if n > 0 {
      PrefixKeyless(t, p, n - 1);
      var s, st := Run(Start(t), p[..n - 1]), p[n - 1];
      assert p[..n] == p[..n - 1] + [st];
      RunSnoc(Start(t), p[..n - 1], st);
      RunKeepsSchema(Start(t), p[..n - 1]);
      RunExtends(Start(t), p[..n - 1]);
      if n > 1 {
        assert p[..n - 1][n - 2] == p[n - 2];
      }
      match st
      case PutCert(_) => CertStepKeyless(t, s, p[..n - 1], st);
      case PutKey(_, _) => KeyStepKeyless(t, s, p[..n - 1], st);
      case _ => OtherStepKeyless(t, s, p[..n - 1], st);
    }
  }

  // ---- never two key rows for one certificate -----------------------------------------

  // A key that falls due has an owner without one.
  predicate DueOwnerHasNone(s: Progress, p: seq<Stmt>) {
    s.keyDue && s.error.None? ==>
      p != [] && p[|p| - 1].PutCert? && !HasKeyFor(s.db, p[|p| - 1].cert.id)
  }

  predicate OneKeyAtMost(db: Db) { DistinctBy(KeyCert, db.keys) }

  lemma NewCertHasNoKey(db: Db, c: CertRow)
    requires RefsResolve(db) && InsertCert(db, c).Ok?
    ensures !HasKeyFor(InsertCert(db, c).value, c.id)
  {
    forall k | k in db.keys ensures k.certId != c.id {
      assert HasCert(db, k.certId);
    }
  }

  lemma StepKeepsOneKeyAtMost(s: Progress, p: seq<Stmt>, st: Stmt)
    requires SchemaOk(s.db) && OneKeyAtMost(s.db) && DueOwnerHasNone(s, p)
    requires p != [] && p[|p| - 1].PutCert? ==> st.PutKey? && st.owner == p[|p| - 1].cert
    ensures OneKeyAtMost(Step(s, st).db) && DueOwnerHasNone(Step(s, st), p + [st])
  {
    if st.PutCert? && Step(s, st).keyDue && s.error.None? {
      NewCertHasNoKey(s.db, UnpackCert(st.cert));
    } else if st.PutKey? && Step(s, st).db != s.db {
      AppendDistinct(KeyCert, s.db.keys, UnpackKey(st.owner, st.keyId));
    }
  }

  // However many statements run, and whatever ids are drawn.
  lemma {:induction false} PrefixKeepsOneKeyAtMost(db: Db, p: seq<Stmt>, n: nat)
    requires SchemaOk(db) && OneKeyAtMost(db) && Paired(p) && n <= |p|
    ensures var s := Run(Start(db), p[..n]); OneKeyAtMost(s.db) && DueOwnerHasNone(s, p[..n])
  {
    if n > 0 {
      PrefixKeepsOneKeyAtMost(db, p, n - 1);
      assert p[..n] == p[..n - 1] + [p[n - 1]];
      RunSnoc(Start(db), p[..n - 1], p[n - 1]);
      RunKeepsSchema(Start(db), p[..n - 1]);
      if n > 1 {
        assert p[..n - 1][n - 2] == p[n - 2];
      }
      StepKeepsOneKeyAtMost(Run(Start(db), p[..n - 1]), p[..n - 1], p[n - 1]);
    }
  }

  lemma RestoreKeepsOneKeyAtMost(db: Db, payload: Payload, d: Draws, n: nat)
    requires SchemaOk(db) && OneKeyAtMost(db) && n <= |Program(payload, d)|
    ensures OneKeyAtMost(Run(Start(db), Program(payload, d)[..n]).db)
  {
    ProgramPaired(payload, d);
    PrefixKeepsOneKeyAtMost(db, Program(payload, d), n);
  }

  // The key identifiers drawn for one restore: new to the table and all different.
  ghost predicate FreshKeys(db: Db, keyId: nat -> string) {
    && (forall i: nat :: !HasKey(db, keyId(i)))
    && (forall i: nat, j: nat :: i < j ==> keyId(i) != keyId(j))
  }

  lemma CertStmtsSnoc(s: Progress, cs: seq<BackupCert>, keyId: nat -> string)
    requires cs != []
    ensures var n := |cs| - 1;
      Run(s, CertStmts(cs, keyId)) ==
        Step(Step(Run(s, CertStmts(cs[..n], keyId)), PutCert(cs[n])), PutKey(cs[n], keyId(n)))
  {
    var n := |cs| - 1;
    var p := CertStmts(cs[..n], keyId);
    RunSnoc(s, p, PutCert(cs[n]));
    RunSnoc(s, p + [PutCert(cs[n])], PutKey(cs[n], keyId(n)));
    assert CertStmts(cs, keyId) == p + [PutCert(cs[n])] + [PutKey(cs[n], keyId(n))];
  }

  lemma {:induction false} OtherStmtsLeaveKeys(s: Progress, p: seq<Stmt>)
    requires forall st :: st in p ==> !st.PutCert? && !st.PutKey?
    ensures var e := Run(s, p); e.db.keys == s.db.keys && e.keyDue == s.keyDue
  {
    if p != [] {
      assert p == p[..|p| - 1] + [p[|p| - 1]];
      OtherStmtsLeaveKeys(s, p[..|p| - 1]);
    }
  }

  // ---- restoring twice --------------------------------------------------------

  // The statement has nothing left to insert.
  predicate Settled(db: Db, st: Stmt) {
    match st
    case PutCa(ca) => HasCaFingerprint(db, ca.fingerprint)
    case PutCert(c) => HasFingerprint(db, c.fingerprint)
    case PutKey(_, _) => true
    case PutSshKey(k) => HasSshKey(db, k.id)
    case PutApp(a) => HasExe(db, a.exePath)
    case PutRoute(r) => HasRoute(db, r.id)
    case PutSshRoute(r) => HasSshRoute(db, r.id)
    case PutAudit(_) => true
  }

  lemma StepSettles(s: Progress, st: Stmt)
    requires Step(s, st).error.None?
    ensures Settled(Step(s, st).db, st)
  {
    var db := Step(s, st).db;
    match st
    case PutCa(ca) => if !HasCaFingerprint(s.db, ca.fingerprint) { assert UnpackCa(ca) in db.caCerts; }
    case PutCert(c) => if !HasFingerprint(s.db, c.fingerprint) { assert UnpackCert(c) in db.certs; }
    case PutKey(_, _) =>
    case PutSshKey(k) => if !HasSshKey(s.db, k.id) { assert UnpackSshKey(k) in db.sshKeys; }
    case PutApp(a) => if !HasExe(s.db, a.exePath) { assert a in db.apps; }
    case PutRoute(r) => if !HasRoute(s.db, r.id) { assert r in db.routes; }
    case PutSshRoute(r) => if !HasSshRoute(s.db, r.id) { assert r in db.sshRoutes; }
    case PutAudit(_) =>
  }

  lemma SettledStays(a: Db, b: Db)
    requires Extends(a, b)
    ensures forall st :: Settled(a, st) ==> Settled(b, st)
  {
    RefsGrow(a, b);
  }

  lemma {:induction false} RunSettles(s: Progress, p: seq<Stmt>)
    requires Run(s, p).error.None?
    ensures forall st :: st in p ==> Settled(Run(s, p).db, st)
  {
    if p != [] {
      var n := |p| - 1;
      var e := Run(s, p[..n]);
      RunSettles(s, p[..n]);
      StepSettles(e, p[n]);
      StepExtends(e, p[n]);
      SettledStays(e.db, Step(e, p[n]).db);
      assert p == p[..n] + [p[n]];
    }
  }

  lemma SettledStepIsIdle(s: Progress, st: Stmt)
    requires s.error.None? && !s.keyDue && Settled(s.db, st) && !st.PutAudit?
    ensures var e := Step(s, st); e.db == s.db && e.error.None? && !e.keyDue
  {
  }

  lemma {:induction false} SettledRunIsIdle(s: Progress, p: seq<Stmt>)
    requires s.error.None? && !s.keyDue
    requires forall st :: st in p ==> Settled(s.db, st) && !st.PutAudit?
    ensures var e := Run(s, p); e.db == s.db && e.error.None? && !e.keyDue
  {
    if p != [] {
      assert p == p[..|p| - 1] + [p[|p| - 1]];
      SettledRunIsIdle(s, p[..|p| - 1]);
      SettledStepIsIdle(Run(s, p[..|p| - 1]), p[|p| - 1]);
    }
  }

  lemma {:induction false} CertStmtsMembers(cs: seq<BackupCert>, keyId: nat -> string)
    ensures forall st :: st in CertStmts(cs, keyId) ==> st.PutKey? || (st.PutCert? && st.cert in cs)
    ensures forall c :: c in cs ==> PutCert(c) in CertStmts(cs, keyId)
  {
    if cs != [] {
      CertStmtsMembers(cs[..|cs| - 1], keyId);
      assert cs == cs[..|cs| - 1] + [cs[|cs| - 1]];
    }
  }

  // Two restores of a payload differ in their key statements only.
  lemma SameInserts(payload: Payload, a: nat -> string, b: nat -> string, st: Stmt)
    requires st in Inserts(payload, b)
    ensures !st.PutAudit? && (st.PutKey? || st in Inserts(payload, a))
  {
    CertStmtsMembers(payload.certs, a);
    CertStmtsMembers(payload.certs, b);
  }

  // Restoring a payload again, whatever ids are drawn, adds nothing but an audit entry.
  lemma RestoreTwice(db: Db, payload: Payload, first: Draws, second: Draws)
    requires Restore(db, payload, first).error.None?
    ensures var once := Restore(db, payload, first).db;
      var twice := Restore(once, payload, second);
      && twice.db.(audit := once.audit) == once
      && (twice.error.None? <==> !HasAudit(once, second.auditId))
      && (twice.error.None? ==> twice.db.audit == once.audit + [AuditEntry(second)])
  {
    var once := Restore(db, payload, first).db;
    var p2 := Inserts(payload, second.keyId);
    RunSettles(Start(db), Program(payload, first));
    forall st | st in p2 ensures Settled(once, st) && !st.PutAudit? {
      SameInserts(payload, first.keyId, second.keyId, st);
      assert st.PutKey? || st in Program(payload, first);
    }
    SettledRunIsIdle(Start(once), p2);
    RunSnoc(Start(once), p2, PutAudit(AuditEntry(second)));
  }
}
