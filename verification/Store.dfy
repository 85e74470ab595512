/** The store handle: tables behind a passphrase, and the operations that read and change them. */
module Store {
  import opened Wrappers
  import opened Seqs
  import opened Schema
  import opened Backup
  import opened RestoreRuns
  import opened RestoreExact
  import opened Keys
  import opened StoreOps
  import opened Routing
  import opened RouteRule
  import opened Integrity

  lemma StopsAt(s: Progress, p: seq<Stmt>, n: nat)
    requires n <= |p| && Run(s, p[..n]).error.Some?
    ensures Run(s, p) == Run(s, p[..n])
  {
    assert p == p[..n] + p[n..];
    RunConcat(s, p[..n], p[n..]);
    RunStops(Run(s, p[..n]), p[n..]);
  }

  lemma NextStmt<X>(s: Progress, f: X -> Stmt, xs: seq<X>, i: nat)
    requires i < |xs|
    ensures Map(f, xs)[..i + 1] == Map(f, xs[..i + 1])
    ensures Run(s, Map(f, xs[..i + 1])) == Step(Run(s, Map(f, xs[..i])), f(xs[i]))
  {
    assert xs[..i + 1] == xs[..i] + [xs[i]];
    MapSnoc(f, xs[..i], xs[i]);
    RunSnoc(s, Map(f, xs[..i]), f(xs[i]));
  }

  lemma {:induction false} CertStmtsFrom(cs: seq<BackupCert>, keyId: nat -> string, n: nat)
    requires n <= |cs|
    ensures CertStmts(cs[..n], keyId) <= CertStmts(cs, keyId)
  {
    if n < |cs| {
      assert cs[..|cs| - 1][..n] == cs[..n];
      CertStmtsFrom(cs[..|cs| - 1], keyId, n);
    } else {
      assert cs[..n] == cs;
    }
  }

  lemma NextCert(s: Progress, cs: seq<BackupCert>, keyId: nat -> string, i: nat)
    requires i < |cs|
    ensures CertStmts(cs[..i + 1], keyId) <= CertStmts(cs, keyId)
    ensures Run(s, CertStmts(cs[..i + 1], keyId))
         == Step(Step(Run(s, CertStmts(cs[..i], keyId)), PutCert(cs[i])), PutKey(cs[i], keyId(i)))
  {
    CertStmtsFrom(cs, keyId, i + 1);
    CertStmtsSnoc(s, cs[..i + 1], keyId);
    assert cs[..i + 1][..i] == cs[..i];
  }

  // A part of the program that fails decides the whole.
  lemma PartStops(s: Progress, part: seq<Stmt>, p: seq<Stmt>)
    requires part <= p && Run(s, part).error.Some?
    ensures Run(s, p) == Run(s, part)
  {
    assert p[..|part|] == part;
    StopsAt(s, p, |part|);
  }

  lemma RunOne(s: Progress, st: Stmt)
    ensures Run(s, [st]) == Step(s, st)
  {
    assert [st][..0] == [];
  }

  lemma RestoreInOrder(db: Db, p: Payload, d: Draws)
    ensures Restore(db, p, d) ==
      Run(Run(Run(Run(Start(db), Entries(p, d.keyId)), Map(RouteStmt, p.routes)), Map(SshRouteStmt, p.sshRoutes)),
          [PutAudit(AuditEntry(d))])
  {
    InsertsInOrder(Start(db), p, d.keyId);
    RunConcat(Start(db), Inserts(p, d.keyId), [PutAudit(AuditEntry(d))]);
  }

  class Store {
    const opens: Bytes -> bool       // the passphrases whose derived key opens the database file
    var session: Option<Bytes>       // the master passphrase, while unlocked
    var db: Db                       // the tables in the file

    // A new file gets its empty tables from the migration; an existing one keeps its own.
    constructor (opens: Bytes -> bool, file: Option<Db>)
      ensures session.None? && this.opens == opens
      ensures db == if file.Some? then file.value else EMPTY_DB
    {
      this.opens := opens;
      session := None;
      db := if file.Some? then file.value else EMPTY_DB;
    }

    method Unlock(passphrase: Bytes) returns (error: Option<StoreError>)
      modifies this`session
      ensures opens(passphrase) ==> error.None? && session == Some(passphrase)
      ensures !opens(passphrase) ==> error == Some(WrongPassphrase) && session == old(session)
    {
      if !opens(passphrase) {
        return Some(WrongPassphrase);
      }
      session := Some(passphrase);
      error := None;
    }

    method Lock()
      modifies this`session
      ensures session.None?
    {
      session := None;
    }

    // ---- import and delete ------------------------------------------------------

    method StoreCertAndKey(c: CertRow, keyId: string, m: KeyMaterial, auditId: string)
      returns (error: Option<StoreError>)
      modifies this`db
      ensures session.None? ==> error == Some(Locked) && db == old(db)
      ensures session.Some? ==> Outcome(db, error) == Import(old(db), c, keyId, m, auditId)
    {
      if session.None? {
        return Some(Locked);
      }
      match InsertCert(db, c) {
        case Err(e) => return Some(e);
        case Ok(db1) => db := db1;
      }
      match InsertKey(db, KeyFor(c, keyId, m)) {
        case Err(e) => return Some(e);
        case Ok(db2) => db := db2;
      }
      match InsertAudit(db, AuditRow(auditId, "cert_imported", Some(c.id), c.createdAt)) {
        case Err(e) => return Some(e);
        case Ok(db3) => db := db3;
      }
      error := None;
    }

    // Afterwards no request is answered with the deleted certificate, and no other answer changes.
    method RemoveCert(name: string, auditId: string, now: int) returns (error: Option<StoreError>)
      modifies this`db
      ensures session.None? ==> error == Some(Locked) && db == old(db)
      ensures session.Some? ==> Outcome(db, error) == DeleteCert(old(db), name, auditId, now)
      ensures session.Some? ==> IsDeletion(old(db), name, auditId, now, Outcome(db, error))
    {
      if session.None? {
        return Some(Locked);
      }
      DeleteExactly(db, name, auditId, now);
      match CertNamed(db.certs, name) {
        case None =>
          error := Some(NotFound);
        case Some(c) =>
          db := DeleteCertRow(db, c.id);
          match InsertAudit(db, AuditRow(auditId, "cert_deleted", Some(c.id), now)) {
            case Err(e) =>
              error := Some(e);
            case Ok(db2) =>
              db := db2;
              error := None;
          }
      }
    }

    // The encrypted key of a certificate.
    method KeyOf(certId: string) returns (r: Result<KeyRow, StoreError>)
      ensures session.None? ==> r == Err(Locked)
      ensures session.Some? ==>
        && (r.Ok? <==> HasKeyFor(db, certId))
        && (r.Ok? ==> r.value in db.keys && r.value.certId == certId)
        && (r.Err? ==> r.error == NotFound)
    {
      if session.None? {
        return Err(Locked);
      }
      FirstKeyFinds(db.keys, certId);
      match FirstKey(db.keys, certId) {
        case None => r := Err(NotFound);
        case Some(k) => r := Ok(k);
      }
    }

    // And decrypted under the master passphrase of the session, with the algorithm its row names.
    method PlaintextKey(certId: string, decrypt: Cipher) returns (r: Result<(Bytes, KeyAlgorithm), StoreError>)
      ensures session.None? ==> r == Err(Locked)
      ensures session.Some? ==> r == PlainKey(db.keys, certId, decrypt, session.value)
      ensures r.Ok? && session.Some? ==>
        exists i :: 0 <= i < |db.keys| && Yields(db.keys, i, certId, decrypt, session.value, r.value.0, r.value.1)
    {
      if session.None? {
        return Err(Locked);
      }
      var k := FirstKey(db.keys, certId);
      if k.None? {
        return Err(NotFound);
      }
      var plain := decrypt(Box(k.value), session.value);
      if plain.None? {
        return Err(Crypto);
      }
      var algorithm := ParseAlgorithm(k.value.algorithm);
      if algorithm.None? {
        return Err(Crypto);
      }
      ghost var i := FirstKeyAt(db.keys, certId);
      assert Yields(db.keys, i, certId, decrypt, session.value, plain.value, algorithm.value);
      r := Ok((plain.value, algorithm.value));
    }

    // ---- routing ----------------------------------------------------------------

    // One pass over the listed routes, keeping the best so far as (priority, specificity, cert id). The
    // answer is the certificate of the row that answers the request; there is none if no row may.
    method ResolveRoute(exe: Option<string>, host: Option<string>, ip: Option<string>)
      returns (r: Result<Option<string>, StoreError>)
      ensures session.None? ==> r == Err(Locked)
      ensures session.Some? ==> r == Ok(Resolve(db, exe, host, ip))
      ensures session.Some? && DistinctBy(AppExe, db.apps) ==>
        && (r.value.None? <==> forall row :: row in db.routes ==> !Meets(db, row, exe, host, ip))
        && (r.value.Some? ==>
              exists i :: 0 <= i < |db.routes| && Answers(db, i, exe, host, ip) && db.routes[i].certId == r.value.value)
        && (forall i :: 0 <= i < |db.routes| && Answers(db, i, exe, host, ip) ==>
              r.value == Some(db.routes[i].certId))
    {
      if session.None? {
        return Err(Locked);
      }
      var q := QueryFor(db, exe, host, ip);
      var routes := ListRoutes(db.routes);
      var best: Option<(int, int, string)> := None;
      ghost var winner: Option<RouteRow> := None;
      for i := 0 to |routes|
        invariant winner == FirstUnbeaten(q, routes[..i])
        invariant best == if winner.None? then None
                          else Some((winner.value.priority, Specificity(q, winner.value), winner.value.certId))
      {
        var route := routes[i];
        assert routes[..i + 1] == routes[..i] + [route];
        FirstUnbeatenExtends(q, routes[..i], route);
        var app, remote := AppMatches(route, q), HostMatches(route, q);
        if route.requireBoth && !(app && remote) {
          continue;
        }
        if !app && !remote {
          continue;
        }
        var specificity := if app && route.appId.Some? && remote && route.pattern.Some? then 2 else 1;
        if best.None? || route.priority > best.value.0
           || (route.priority == best.value.0 && specificity > best.value.1) {
          best := Some((route.priority, specificity, route.certId));
          winner := Some(route);
        }
      }
      assert routes[..|routes|] == routes;
      ScanFindsWinner(q, db.routes);
      if DistinctBy(AppExe, db.apps) {
        ResolveMeans(db, exe, host, ip);
      }
      r := Ok(if best.None? then None else Some(best.value.2));
    }

    // ---- backup and restore -------------------------------------------------------

    method CreateBackup(auditId: string, now: int) returns (r: Result<Payload, StoreError>)
      modifies this`db
      ensures session.None? ==> r == Err(Locked)
      ensures session.Some? ==> (r.Err? <==> HasAudit(old(db), auditId)) && (r.Ok? ==> r.value == Collect(old(db), now))
      ensures db.(audit := old(db).audit) == old(db)
      ensures db.audit == old(db).audit + if r.Ok? then [AuditRow(auditId, "backup_created", None, now)] else []
    {
      if session.None? {
        return Err(Locked);
      }
      var payload := Collect(db, now);
      match InsertAudit(db, AuditRow(auditId, "backup_created", None, now)) {
        case Err(e) =>
          r := Err(e);
        case Ok(db1) =>
          db := db1;
          r := Ok(payload);
      }
    }

    method RestoreCas(cs: seq<BackupCa>, start: Counts) returns (counts: Counts, error: Option<StoreError>)
      modifies this`db
      ensures Progress(db, counts, false, error) == Run(Progress(old(db), start, false, None), Map(CaStmt, cs))
    {
      ghost var s := Progress(db, start, false, None);
      counts, error := start, None;
      for i := 0 to |cs|
        invariant error.None? && Progress(db, counts, false, None) == Run(s, Map(CaStmt, cs[..i]))
      {
        NextStmt(s, CaStmt, cs, i);
        if !HasCaFingerprint(db, cs[i].fingerprint) {
          match InsertCa(db, UnpackCa(cs[i])) {
            case Err(e) =>
              StopsAt(s, Map(CaStmt, cs), i + 1);
              return counts, Some(e);
            case Ok(db1) =>
              db := db1;
              counts := counts.(caCerts := counts.caCerts + 1);
          }
        }
      }
      assert cs[..|cs|] == cs;
    }

    method RestoreSshKeys(ks: seq<BackupSshKey>, start: Counts) returns (counts: Counts, error: Option<StoreError>)
      modifies this`db
      ensures Progress(db, counts, false, error) == Run(Progress(old(db), start, false, None), Map(SshKeyStmt, ks))
    {
      ghost var s := Progress(db, start, false, None);
      counts, error := start, None;
      for i := 0 to |ks|
        invariant error.None? && Progress(db, counts, false, None) == Run(s, Map(SshKeyStmt, ks[..i]))
      {
        NextStmt(s, SshKeyStmt, ks, i);
        if !HasSshKey(db, ks[i].id) {
          match InsertSshKey(db, UnpackSshKey(ks[i])) {
            case Err(_) =>
              assert false;
            case Ok(db1) =>
              db := db1;
              counts := counts.(sshKeys := counts.sshKeys + 1);
          }
        }
      }
      assert ks[..|ks|] == ks;
    }

    method RestoreApps(xs: seq<AppRow>, start: Counts) returns (counts: Counts, error: Option<StoreError>)
      modifies this`db
      ensures Progress(db, counts, false, error) == Run(Progress(old(db), start, false, None), Map(AppStmt, xs))
    {
      ghost var s := Progress(db, start, false, None);
      counts, error := start, None;
      for i := 0 to |xs|
        invariant error.None? && Progress(db, counts, false, None) == Run(s, Map(AppStmt, xs[..i]))
      {
        NextStmt(s, AppStmt, xs, i);
        if !HasExe(db, xs[i].exePath) {
          match InsertApp(db, xs[i]) {
            case Err(e) =>
              StopsAt(s, Map(AppStmt, xs), i + 1);
              return counts, Some(e);
            case Ok(db1) =>
              db := db1;
              counts := counts.(apps := counts.apps + 1);
          }
        }
      }
      assert xs[..|xs|] == xs;
    }

    method RestoreRoutes(rs: seq<RouteRow>, start: Counts) returns (counts: Counts, error: Option<StoreError>)
      modifies this`db
      ensures Progress(db, counts, false, error) == Run(Progress(old(db), start, false, None), Map(RouteStmt, rs))
    {
      ghost var s := Progress(db, start, false, None);
      counts, error := start, None;
      for i := 0 to |rs|
        invariant error.None? && Progress(db, counts, false, None) == Run(s, Map(RouteStmt, rs[..i]))
      {
        NextStmt(s, RouteStmt, rs, i);
        match InsertOrIgnoreRoute(db, rs[i]) {
          case Err(e) =>
            StopsAt(s, Map(RouteStmt, rs), i + 1);
            return counts, Some(e);
          case Ok(db1) =>
            db := db1;
            counts := counts.(routes := counts.routes + 1);
        }
      }
      assert rs[..|rs|] == rs;
    }

    method RestoreSshRoutes(rs: seq<SshRouteRow>, start: Counts) returns (counts: Counts, error: Option<StoreError>)
      modifies this`db
      ensures Progress(db, counts, false, error) == Run(Progress(old(db), start, false, None), Map(SshRouteStmt, rs))
    {
      ghost var s := Progress(db, start, false, None);
      counts, error := start, None;
      for i := 0 to |rs|
        invariant error.None? && Progress(db, counts, false, None) == Run(s, Map(SshRouteStmt, rs[..i]))
      {
        NextStmt(s, SshRouteStmt, rs, i);
        match InsertOrIgnoreSshRoute(db, rs[i]) {
          case Err(e) =>
            StopsAt(s, Map(SshRouteStmt, rs), i + 1);
            return counts, Some(e);
          case Ok(db1) =>
            db := db1;
            counts := counts.(sshRoutes := counts.sshRoutes + 1);
        }
      }
      assert rs[..|rs|] == rs;
    }

    // One certificate and its key. A key row that fails leaves its certificate behind: keyDue.
    method RestoreCert(c: BackupCert, keyId: string, start: Counts)
      returns (counts: Counts, ghost keyDue: bool, error: Option<StoreError>)
      modifies this`db
      ensures Progress(db, counts, keyDue, error)
           == Step(Step(Progress(old(db), start, false, None), PutCert(c)), PutKey(c, keyId))
      ensures error.None? ==> !keyDue
    {
      counts, keyDue, error := start, false, None;
      if !HasFingerprint(db, c.fingerprint) {
        if Hex.Decode(c.certDer).None? {
          return counts, false, Some(BadImport);
        }
        match InsertCert(db, UnpackCert(c)) {
          case Err(e) => return counts, false, Some(e);
          case Ok(db1) => db := db1;
        }
        match InsertKey(db, UnpackKey(c, keyId)) {
          case Err(e) => return counts, true, Some(e);
          case Ok(db2) => db := db2;
        }
        counts := counts.(certs := counts.certs + 1);
      }
    }

    method RestoreCerts(cs: seq<BackupCert>, keyId: nat -> string, start: Counts)
      returns (counts: Counts, ghost keyDue: bool, error: Option<StoreError>)
      modifies this`db
      ensures Progress(db, counts, keyDue, error) == Run(Progress(old(db), start, false, None), CertStmts(cs, keyId))
      ensures error.None? ==> !keyDue
    {
      ghost var s := Progress(db, start, false, None);
      counts, keyDue, error := start, false, None;
      for i := 0 to |cs|
        invariant error.None? && !keyDue
        invariant Progress(db, counts, false, None) == Run(s, CertStmts(cs[..i], keyId))
      {
        NextCert(s, cs, keyId, i);
        counts, keyDue, error := RestoreCert(cs[i], keyId(i), counts);
        if error.Some? {
          PartStops(s, CertStmts(cs[..i + 1], keyId), CertStmts(cs, keyId));
          return;
        }
      }
      assert cs[..|cs|] == cs;
    }

    // The tables no row of which refers to another table's rows, but for the keys.
    method RestoreEntries(p: Payload, keyId: nat -> string)
      returns (counts: Counts, ghost keyDue: bool, error: Option<StoreError>)
      modifies this`db
      ensures Progress(db, counts, keyDue, error) == Run(Start(old(db)), Entries(p, keyId))
      ensures error.None? ==> !keyDue
    {
      ghost var certs, sshKeys, apps := CertStmts(p.certs, keyId), Map(SshKeyStmt, p.sshKeys), Map(AppStmt, p.apps);
      EntriesInOrder(Start(db), p, keyId);
      keyDue := false;
      counts, error := RestoreCas(p.caCerts, NO_COUNTS);
      ghost var s := Progress(db, counts, keyDue, error);
      if error.Some? {
        RunStops(s, certs);
        RunStops(s, sshKeys);
        RunStops(s, apps);
        return;
      }
      counts, keyDue, error := RestoreCerts(p.certs, keyId, counts);
      s := Progress(db, counts, keyDue, error);
      if error.Some? {
        RunStops(s, sshKeys);
        RunStops(s, apps);
        return;
      }
      counts, error := RestoreSshKeys(p.sshKeys, counts);
      s := Progress(db, counts, keyDue, error);
      if error.Some? {
        RunStops(s, apps);
        return;
      }
      counts, error := RestoreApps(p.apps, counts);
    }

    // Six tables in foreign-key order, each row a statement of its own; the first failure ends the
    // restore and leaves what was written.
    method RestoreBackup(p: Payload, d: Draws) returns (r: Result<Counts, StoreError>)
      modifies this`db
      ensures session.None? ==> r == Err(Locked) && db == old(db)
      ensures session.Some? ==> db == Restore(old(db), p, d).db
      ensures session.Some? ==> r == if Restore(old(db), p, d).error.Some? then Err(Restore(old(db), p, d).error.value)
                                     else Ok(Restore(old(db), p, d).counts)
      ensures r.Ok? ==> db.audit == old(db).audit + [AuditRow(d.auditId, "backup_restored", None, d.now)]
    {
      if session.None? {
        return Err(Locked);
      }
      ghost var audit := [PutAudit(AuditEntry(d))];
      ghost var sshRoutes := Map(SshRouteStmt, p.sshRoutes);
      RestoreInOrder(db, p, d);
      RestoreSucceedsIff(db, p, d);
      var counts, keyDue, error := RestoreEntries(p, d.keyId);
      ghost var s := Progress(db, counts, keyDue, error);
      if error.Some? {
        RunStops(s, Map(RouteStmt, p.routes));
        RunStops(s, sshRoutes);
        RunStops(s, audit);
        return Err(error.value);
      }
      counts, error := RestoreRoutes(p.routes, counts);
      s := Progress(db, counts, false, error);
      if error.Some? {
        RunStops(s, sshRoutes);
        RunStops(s, audit);
        return Err(error.value);
      }
      counts, error := RestoreSshRoutes(p.sshRoutes, counts);
      s := Progress(db, counts, false, error);
      RunOne(s, PutAudit(AuditEntry(d)));
      if error.Some? {
        return Err(error.value);
      }
      match InsertAudit(db, AuditEntry(d)) {
        case Err(e) =>
          r := Err(e);
        case Ok(db1) =>
          db := db1;
          r := Ok(counts);
      }
    }

    // ---- integrity records ----------------------------------------------------------

    method RecordBinary(files: Files, component: string, path: string, version: string, id: string, now: int)
      returns (error: Option<StoreError>)
      modifies this`db
      ensures error == if session.None? then Some(Locked) else if path !in files then Some(NotFound) else None
      ensures db == if error.Some? then old(db)
                    else InsertOrReplaceIntegrity(
                      old(db), IntegrityRow(id, component, path, files[path], version, now, None))
      ensures error.None? ==>
        && (forall r :: r in db.integrity <==>
              (r in old(db).integrity && r.id != id)
              || r == IntegrityRow(id, component, path, files[path], version, now, None))
        && db.(integrity := old(db).integrity) == old(db)
    {
      if session.None? {
        return Some(Locked);
      }
      if path !in files {
        return Some(NotFound);
      }
      db := InsertOrReplaceIntegrity(db, IntegrityRow(id, component, path, files[path], version, now, None));
      error := None;
    }

    // Passes exactly when every recorded binary still has its recorded hash.
    method VerifyAll(files: Files, now: int) returns (error: Option<StoreError>)
      modifies this`db
      ensures session.None? ==> error == Some(Locked)
      ensures session.Some? ==> (error.None? <==> AllGenuine(files, old(db).integrity))
      ensures session.Some? ==>
        (error.None? <==> forall r :: r in old(db).integrity ==> r.path in files && files[r.path] == r.sha256)
      ensures db == if error.None? then MarkVerified(old(db), now) else old(db)
      ensures error.None? ==>
        && db == old(db).(integrity := db.integrity)
        && |db.integrity| == |old(db).integrity|
        && forall i :: 0 <= i < |db.integrity| ==> db.integrity[i] == old(db).integrity[i].(verifiedAt := Some(now))
    {
      if session.None? {
        return Some(Locked);
      }
      error := VerifyRecords(files, ListRecords(db.integrity));
      ListRecordsIsPermutation(db.integrity);
      assert forall r :: r in db.integrity <==> r in multiset(db.integrity);
      assert forall r :: r in ListRecords(db.integrity) <==> r in multiset(ListRecords(db.integrity));
      if error.None? {
        db := MarkVerified(db, now);
      }
    }
  }
}
