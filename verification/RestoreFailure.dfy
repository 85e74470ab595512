/** Where a failing restore stops, with which error, and exactly what it leaves. */
module RestoreFailure {
  import opened Wrappers
  import opened Seqs
  import opened Schema
  import opened Backup
  import opened RestoreRuns
  import opened RestoreExact
  import opened KeyLoss

  // ---- the part of a payload that the first n statements carry ------------------------------

  function Cap(n: int, most: nat): (k: nat)
    ensures k <= most && (n <= most ==> k <= n || k == 0)
  {
    if n <= 0 then 0 else if n < most then n else most
  }

  // Where each table's statements begin.
  function CertsFrom(p: Payload): nat { |p.caCerts| }
  function SshKeysFrom(p: Payload): nat { CertsFrom(p) + 2 * |p.certs| }
  function AppsFrom(p: Payload): nat { SshKeysFrom(p) + |p.sshKeys| }
  function RoutesFrom(p: Payload): nat { AppsFrom(p) + |p.apps| }
  function SshRoutesFrom(p: Payload): nat { RoutesFrom(p) + |p.routes| }

  function Part(p: Payload, n: nat): Payload {
    p.(caCerts := p.caCerts[..Cap(n, |p.caCerts|)],
       certs := p.certs[..Cap((n - CertsFrom(p)) / 2, |p.certs|)],
       sshKeys := p.sshKeys[..Cap(n - SshKeysFrom(p), |p.sshKeys|)],
       apps := p.apps[..Cap(n - AppsFrom(p), |p.apps|)],
       routes := p.routes[..Cap(n - RoutesFrom(p), |p.routes|)],
       sshRoutes := p.sshRoutes[..Cap(n - SshRoutesFrom(p), |p.sshRoutes|)])
  }

  // The n-th statement is a certificate's key.
  predicate InsidePair(p: Payload, n: nat) {
    CertsFrom(p) < n < SshKeysFrom(p) && (n - CertsFrom(p)) % 2 == 1
  }

  lemma TakeConcat<T>(a: seq<T>, b: seq<T>, n: nat)
    requires n <= |a| + |b|
    ensures (a + b)[..n] == a[..Cap(n, |a|)] + b[..Cap(n - |a|, |b|)]
  {
  }

  lemma TakeMap<A, B>(f: A -> B, s: seq<A>, n: nat)
    requires n <= |s|
    ensures Map(f, s[..n]) == Map(f, s)[..n]
  {
  }

  lemma TakeCertStmts(p: Payload, keyId: nat -> string, n: nat)
    requires !InsidePair(p, n)
    ensures |CertStmts(p.certs, keyId)| == 2 * |p.certs|
    ensures CertStmts(Part(p, n).certs, keyId) ==
      CertStmts(p.certs, keyId)[..Cap(n - CertsFrom(p), 2 * |p.certs|)]
  {
    var k := Cap((n - CertsFrom(p)) / 2, |p.certs|);
    CertStmtsTake(p.certs, keyId, k);
    assert Cap(n - CertsFrom(p), 2 * |p.certs|) == 2 * k;
  }

  function Five(p: Payload, keyId: nat -> string): seq<Stmt> { Four(p, keyId) + Map(RouteStmt, p.routes) }
  function Four(p: Payload, keyId: nat -> string): seq<Stmt> { Three(p, keyId) + Map(AppStmt, p.apps) }
  function Three(p: Payload, keyId: nat -> string): seq<Stmt> { Two(p, keyId) + Map(SshKeyStmt, p.sshKeys) }
  function Two(p: Payload, keyId: nat -> string): seq<Stmt> { Map(CaStmt, p.caCerts) + CertStmts(p.certs, keyId) }

  lemma PartOfTwo(p: Payload, keyId: nat -> string, n: nat)
    requires !InsidePair(p, n)
    ensures |Two(p, keyId)| == SshKeysFrom(p)
    ensures Two(Part(p, n), keyId) == Two(p, keyId)[..Cap(n, SshKeysFrom(p))]
  {
    TakeCertStmts(p, keyId, n);
    TakeMap(CaStmt, p.caCerts, Cap(n, |p.caCerts|));
    TakeConcat(Map(CaStmt, p.caCerts), CertStmts(p.certs, keyId), Cap(n, SshKeysFrom(p)));
  }

  lemma PartOfFour(p: Payload, keyId: nat -> string, n: nat)
    requires !InsidePair(p, n)
    ensures |Four(p, keyId)| == RoutesFrom(p)
    ensures Four(Part(p, n), keyId) == Four(p, keyId)[..Cap(n, RoutesFrom(p))]
  {
    PartOfTwo(p, keyId, n);
    TakeMap(SshKeyStmt, p.sshKeys, Cap(n - SshKeysFrom(p), |p.sshKeys|));
    TakeConcat(Two(p, keyId), Map(SshKeyStmt, p.sshKeys), Cap(n, AppsFrom(p)));
    assert Three(Part(p, n), keyId) == Three(p, keyId)[..Cap(n, AppsFrom(p))];
    TakeMap(AppStmt, p.apps, Cap(n - AppsFrom(p), |p.apps|));
    TakeConcat(Three(p, keyId), Map(AppStmt, p.apps), Cap(n, RoutesFrom(p)));
  }

  lemma PartOfInserts(p: Payload, keyId: nat -> string, n: nat)
    requires !InsidePair(p, n) && n <= |Inserts(p, keyId)|
    ensures Inserts(Part(p, n), keyId) == Inserts(p, keyId)[..n]
  {
    PartOfFour(p, keyId, n);
    TakeMap(RouteStmt, p.routes, Cap(n - RoutesFrom(p), |p.routes|));
    TakeConcat(Four(p, keyId), Map(RouteStmt, p.routes), Cap(n, SshRoutesFrom(p)));
    assert Five(Part(p, n), keyId) == Five(p, keyId)[..Cap(n, SshRoutesFrom(p))];
    TakeMap(SshRouteStmt, p.sshRoutes, Cap(n - SshRoutesFrom(p), |p.sshRoutes|));
    TakeConcat(Five(p, keyId), Map(SshRouteStmt, p.sshRoutes), n);
    assert Inserts(p, keyId) == Five(p, keyId) + Map(SshRouteStmt, p.sshRoutes);
    assert Inserts(Part(p, n), keyId) == Five(Part(p, n), keyId) + Map(SshRouteStmt, Part(p, n).sshRoutes);
  }

  // After n statements, none of them a certificate whose key is still to come: no error exactly if the
  // part they carry is admitted, and then exactly its new rows are in.
  lemma CutExact(t: Db, p: Payload, d: Draws, n: nat)
    requires !InsidePair(p, n) && n <= |Inserts(p, d.keyId)|
    ensures var s := Run(Start(t), Program(p, d)[..n]);
      && (s.error.None? <==> Admits(t, Part(p, n), d.keyId))
      && (s.error.None? ==>
            s.db == Grown(t, Part(p, n), d).(audit := t.audit) && s.counts == GrownCounts(t, Part(p, n)))
  {
    PartOfInserts(p, d.keyId, n);
    assert Program(p, d)[..n] == Inserts(p, d.keyId)[..n];
    InsertsExact(t, Part(p, n), d);
  }

  // ---- the statement that fails ---------------------------------------------------------------

  lemma {:induction false} FirstFailure(s: Progress, p: seq<Stmt>) returns (n: nat)
    requires s.error.None? && Run(s, p).error.Some?
    ensures n < |p| && Run(s, p[..n]).error.None? && Step(Run(s, p[..n]), p[n]).error.Some?
    ensures Run(s, p) == Step(Run(s, p[..n]), p[n])
  {
    var last := |p| - 1;
    if Run(s, p[..last]).error.None? {
      n := last;
    } else {
      n := FirstFailure(s, p[..last]);
      assert p[..last][..n] == p[..n];
    }
  }

  function ErrorOf(st: Stmt): StoreError {
    match st
    case PutCert(c) => if Hex.Decode(c.certDer).None? then BadImport else Constraint
    case PutRoute(_) => ForeignKey
    case PutSshRoute(_) => ForeignKey
    case _ => Constraint
  }

  lemma StepFails(s: Progress, st: Stmt)
    requires s.error.None? && Step(s, st).error.Some?
    requires st.PutKey? ==> HasCert(s.db, st.owner.id)
    ensures !st.PutSshKey? && Step(s, st).error == Some(ErrorOf(st)) && Step(s, st).db == s.db
    ensures st.PutKey? ==> s.keyDue
  {
  }

  lemma DueOwnerIsThere(t: Db, p: Payload, d: Draws, n: nat)
    requires SchemaOk(t) && n < |Program(p, d)| && Program(p, d)[n].PutKey?
    requires var s := Run(Start(t), Program(p, d)[..n]); s.error.None? && s.keyDue
    ensures HasCert(Run(Start(t), Program(p, d)[..n]).db, Program(p, d)[n].owner.id)
    ensures n > 0 && Program(p, d)[n - 1] == PutCert(Program(p, d)[n].owner)
  {
    var s, program := Run(Start(t), Program(p, d)[..n]), Program(p, d);
    ProgramPaired(p, d);
    PrefixKeyless(t, program, n);
    assert program[..n][n - 1] == program[n - 1];
    assert s.db.certs[|s.db.certs| - 1] in s.db.certs;
  }

  // A failing restore stops at one statement, with that statement's error, and leaves the store as it
  // was before it.
  lemma RestoreStopsAt(t: Db, p: Payload, d: Draws) returns (n: nat)
    requires SchemaOk(t) && Restore(t, p, d).error.Some?
    ensures n < |Program(p, d)|
    ensures var s, st, r := Run(Start(t), Program(p, d)[..n]), Program(p, d)[n], Restore(t, p, d);
      && s.error.None? && r == Step(s, st) && r.db == s.db
      && !st.PutSshKey? && r.error == Some(ErrorOf(st))
      && (st.PutKey? ==> s.keyDue && n > 0 && Program(p, d)[n - 1] == PutCert(st.owner))
  {
    n := FirstFailure(Start(t), Program(p, d));
    var s, st := Run(Start(t), Program(p, d)[..n]), Program(p, d)[n];
    if st.PutKey? {
      DueOwnerIsThere(t, p, d, n);
    }
    StepFails(s, st);
  }

  lemma {:induction false} CertStmtsKinds(cs: seq<BackupCert>, keyId: nat -> string, i: nat)
    requires i < 2 * |cs|
    ensures |CertStmts(cs, keyId)| == 2 * |cs|
    ensures CertStmts(cs, keyId)[i] == if i % 2 == 0 then PutCert(cs[i / 2]) else PutKey(cs[i / 2], keyId(i / 2))
  {
    var n := |cs| - 1;
    if i < 2 * n {
      CertStmtsKinds(cs[..n], keyId, i);
    } else if n > 0 {
      CertStmtsKinds(cs[..n], keyId, 0);
    }
  }

  // Only the second statement of a certificate is a key's.
  lemma KeyStatements(p: Payload, d: Draws, n: nat)
    requires n < |Program(p, d)|
    ensures Program(p, d)[n].PutKey? <==> InsidePair(p, n)
    ensures InsidePair(p, n) ==> Program(p, d)[n].owner == p.certs[(n - CertsFrom(p)) / 2]
    ensures InsidePair(p, n + 1) ==> Program(p, d)[n].PutCert?
    ensures n < |Program(p, d)| - 1 && Program(p, d)[n].PutCert? ==> !InsidePair(p, n + 2) && n + 2 < |Program(p, d)|
  {
    var cas, certs := Map(CaStmt, p.caCerts), CertStmts(p.certs, d.keyId);
    ProgramParts(p, d);
    var i := n - |cas|;
    if n < |cas| {
      assert Program(p, d)[n] == cas[n] && cas[n] in cas;
    } else if i < 2 * |p.certs| {
      CertStmtsKinds(p.certs, d.keyId, i);
      assert Program(p, d)[n] == certs[i];
    } else {
      assert Program(p, d)[n] == Back(p, d)[i - |certs|] && Back(p, d)[i - |certs|] in Back(p, d);
    }
  }

  // What a restore leaves when the key of its k-th certificate fails: that certificate, too.
  lemma LeftAtKey(t: Db, p: Payload, d: Draws, n: nat)
    requires n < |Program(p, d)| && Program(p, d)[n].PutKey?
    requires n > 0 && Program(p, d)[n - 1] == PutCert(Program(p, d)[n].owner)
    requires var s := Run(Start(t), Program(p, d)[..n]); s.error.None? && s.keyDue
    ensures InsidePair(p, n) && Admits(t, Part(p, n - 1), d.keyId)
    ensures var before := Grown(t, Part(p, n - 1), d);
      Run(Start(t), Program(p, d)[..n]).db ==
        before.(audit := t.audit, certs := before.certs + [UnpackCert(p.certs[(n - CertsFrom(p)) / 2])])
  {
    var program := Program(p, d);
    KeyStatements(p, d, n);
    assert program[..n] == program[..n - 1] + [program[n - 1]];
    RunSnoc(Start(t), program[..n - 1], program[n - 1]);
    DueMeansInserted(Run(Start(t), program[..n - 1]), program[n].owner);
    PairEnds(p, d, n);
    CutExact(t, p, d, n - 1);
  }

  lemma DueMeansInserted(s: Progress, c: BackupCert)
    requires Step(s, PutCert(c)).error.None? && Step(s, PutCert(c)).keyDue
    ensures s.error.None? && Step(s, PutCert(c)).db == s.db.(certs := s.db.certs + [UnpackCert(c)])
  {
  }

  lemma PairEnds(p: Payload, d: Draws, n: nat)
    requires InsidePair(p, n) && n < |Program(p, d)|
    ensures n > 0 && !InsidePair(p, n - 1) && n - 1 <= |Inserts(p, d.keyId)|
  {
  }

  // The index at which the part of a payload first takes in the n-th statement.
  function Next(p: Payload, d: Draws, n: nat): nat
    requires n < |Program(p, d)|
  {
    if Program(p, d)[n].PutCert? then n + 2 else n + 1
  }

  lemma NotAdmitted(t: Db, p: Payload, d: Draws, n: nat)
    requires n < |Program(p, d)| - 1 && Step(Run(Start(t), Program(p, d)[..n]), Program(p, d)[n]).error.Some?
    ensures Next(p, d, n) < |Program(p, d)| && !InsidePair(p, Next(p, d, n))
    ensures !Admits(t, Part(p, Next(p, d, n)), d.keyId)
  {
    var program, next := Program(p, d), Next(p, d, n);
    KeyStatements(p, d, n);
    assert program[..n + 1] == program[..n] + [program[n]];
    RunSnoc(Start(t), program[..n], program[n]);
    assert program[..next] == program[..n + 1] + program[n + 1..next];
    RunConcat(Start(t), program[..n + 1], program[n + 1..next]);
    RunStops(Run(Start(t), program[..n + 1]), program[n + 1..next]);
    CutExact(t, p, d, next);
  }

  // On the inputs: the statement is the first whose part of the payload is not admitted, or the log
  // entry. What is left are exactly the new rows of the part before it, and before a failing key its
  // certificate, too.
  lemma RestoreFailsExactly(t: Db, p: Payload, d: Draws) returns (n: nat)
    requires SchemaOk(t) && Restore(t, p, d).error.Some?
    ensures n < |Program(p, d)| && Restore(t, p, d).error == Some(ErrorOf(Program(p, d)[n]))
    ensures n == |Program(p, d)| - 1 ==> HasAudit(t, d.auditId)
    ensures n < |Program(p, d)| - 1 ==> !Admits(t, Part(p, Next(p, d, n)), d.keyId)
    ensures !InsidePair(p, n) ==>
      && Admits(t, Part(p, n), d.keyId)
      && Restore(t, p, d).db == Grown(t, Part(p, n), d).(audit := t.audit)
    ensures InsidePair(p, n) ==>
      var before := Grown(t, Part(p, n - 1), d);
      && Admits(t, Part(p, n - 1), d.keyId)
      && Restore(t, p, d).db ==
           before.(audit := t.audit, certs := before.certs + [UnpackCert(p.certs[(n - CertsFrom(p)) / 2])])
  {
    n := RestoreStopsAt(t, p, d);
    KeyStatements(p, d, n);
    if InsidePair(p, n) {
      LeftAtKey(t, p, d, n);
    } else {
      CutExact(t, p, d, n);
    }
    if n < |Program(p, d)| - 1 {
      NotAdmitted(t, p, d, n);
    }
  }
}
