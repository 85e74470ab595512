/** Backup and restore: what a backup holds, and the statements a restore issues,
    one after the other, with no transaction around them. */
module Backup {
  import opened Wrappers
  import opened Seqs
  import opened Schema
  import Hex

  datatype BackupCert = BackupCert(
    id: string, name: string, certDer: string, fingerprint: string, subject: string, issuer: string,
    notBefore: int, notAfter: int, createdAt: int,
    keyEnc: string, keySalt: string, keyNonce: string, keyAlgorithm: string)

  datatype BackupSshKey = BackupSshKey(
    id: string, name: string, publicKey: string, algorithm: string,
    keyEnc: string, keySalt: string, keyNonce: string, createdAt: int)

  datatype BackupCa = BackupCa(
    id: string, name: string, certPem: string, fingerprint: string, subject: string,
    notAfter: int, createdAt: int)

  // Apps and routes are backed up column for column.
  datatype Payload = Payload(
    version: nat, exportedAt: int,
    certs: seq<BackupCert>, sshKeys: seq<BackupSshKey>, caCerts: seq<BackupCa>,
    apps: seq<AppRow>, routes: seq<RouteRow>, sshRoutes: seq<SshRouteRow>)

  // ---- rows to backup entries and back ---------------------------------------

  function PackCert(c: CertRow, k: KeyRow): BackupCert {
    BackupCert(c.id, c.name, Hex.Encode(c.certDer), c.fingerprint, c.subject, c.issuer,
               c.notBefore, c.notAfter, c.createdAt,
               Hex.Encode(k.keyEnc), Hex.Encode(k.keySalt), Hex.Encode(k.keyNonce), k.algorithm)
  }

  function PackSshKey(k: SshKeyRow): BackupSshKey {
    BackupSshKey(k.id, k.name, k.publicKey, k.algorithm,
                 Hex.Encode(k.keyEnc), Hex.Encode(k.keySalt), Hex.Encode(k.keyNonce), k.createdAt)
  }

  function PackCa(c: CaRow): BackupCa {
    BackupCa(c.id, c.name, c.certPem, c.fingerprint, c.subject, c.notAfter, c.createdAt)
  }

  function BlobOrEmpty(s: string): Bytes {
    if Hex.Decode(s).Some? then Hex.Decode(s).value else []
  }

  function UnpackCert(b: BackupCert): CertRow {
    CertRow(b.id, b.name, BlobOrEmpty(b.certDer), b.fingerprint, b.subject, b.issuer,
            b.notBefore, b.notAfter, b.createdAt)
  }

  function UnpackKey(b: BackupCert, keyId: string): KeyRow {
    KeyRow(keyId, b.id, b.keyAlgorithm, BlobOrEmpty(b.keyEnc), BlobOrEmpty(b.keySalt), BlobOrEmpty(b.keyNonce))
  }

  function UnpackSshKey(b: BackupSshKey): SshKeyRow {
    SshKeyRow(b.id, b.name, b.publicKey, b.algorithm,
              BlobOrEmpty(b.keyEnc), BlobOrEmpty(b.keySalt), BlobOrEmpty(b.keyNonce), b.createdAt)
  }

  function UnpackCa(b: BackupCa): CaRow {
    CaRow(b.id, b.name, b.certPem, b.fingerprint, b.subject, b.notAfter, None, b.createdAt)
  }

  // certs JOIN keys ON keys.cert_id = certs.id
  function JoinKeys(c: CertRow, keys: seq<KeyRow>): seq<BackupCert> {
    if keys == [] then []
    else (if keys[0].certId == c.id then [PackCert(c, keys[0])] else []) + JoinKeys(c, keys[1..])
  }

  function JoinCerts(certs: seq<CertRow>, keys: seq<KeyRow>): seq<BackupCert> {
    if certs == [] then [] else JoinKeys(certs[0], keys) + JoinCerts(certs[1..], keys)
  }

  function Collect(db: Db, now: int): Payload {
    Payload(1, now, JoinCerts(db.certs, db.keys), Map(PackSshKey, db.sshKeys), Map(PackCa, db.caCerts),
            db.apps, db.routes, db.sshRoutes)
  }

  // ---- restore as a program of statements ------------------------------------

  datatype Counts = Counts(certs: nat, sshKeys: nat, caCerts: nat, apps: nat, routes: nat, sshRoutes: nat)

  // One loop iteration's work on one table. A certificate's key row is a statement of its own.
  datatype Stmt =
    | PutCa(ca: BackupCa)
    | PutCert(cert: BackupCert)
    | PutKey(owner: BackupCert, keyId: string)
    | PutSshKey(key: BackupSshKey)
    | PutApp(app: AppRow)
    | PutRoute(route: RouteRow)
    | PutSshRoute(sshRoute: SshRouteRow)
    | PutAudit(entry: AuditRow)

  // keyDue: the certificate just inserted still lacks its key row.
  datatype Progress = Progress(db: Db, counts: Counts, keyDue: bool, error: Option<StoreError>)

  const NO_COUNTS := Counts(0, 0, 0, 0, 0, 0)

  function Start(db: Db): Progress { Progress(db, NO_COUNTS, false, None) }

  function Step(s: Progress, st: Stmt): Progress {
    if s.error.Some? then s
    else match st
      case PutCa(ca) =>
        if HasCaFingerprint(s.db, ca.fingerprint) then s
        else (match InsertCa(s.db, UnpackCa(ca))
              case Ok(db) => s.(db := db, counts := s.counts.(caCerts := s.counts.caCerts + 1))
              case Err(e) => s.(error := Some(e)))
      case PutCert(c) =>
        if HasFingerprint(s.db, c.fingerprint) then s.(keyDue := false)
        else if Hex.Decode(c.certDer).None? then s.(error := Some(BadImport))
        else (match InsertCert(s.db, UnpackCert(c))
              case Ok(db) => s.(db := db, keyDue := true)
              case Err(e) => s.(error := Some(e)))
      case PutKey(c, keyId) =>
        if !s.keyDue then s
        else (match InsertKey(s.db, UnpackKey(c, keyId))
              case Ok(db) => s.(db := db, counts := s.counts.(certs := s.counts.certs + 1), keyDue := false)
              case Err(e) => s.(error := Some(e)))
      case PutSshKey(k) =>
        if HasSshKey(s.db, k.id) then s
        else (match InsertSshKey(s.db, UnpackSshKey(k))
              case Ok(db) => s.(db := db, counts := s.counts.(sshKeys := s.counts.sshKeys + 1))
              case Err(e) => s.(error := Some(e)))
      case PutApp(a) =>
        if HasExe(s.db, a.exePath) then s
        else (match InsertApp(s.db, a)
              case Ok(db) => s.(db := db, counts := s.counts.(apps := s.counts.apps + 1))
              case Err(e) => s.(error := Some(e)))
      case PutRoute(r) =>
        (match InsertOrIgnoreRoute(s.db, r)
         case Ok(db) => s.(db := db, counts := s.counts.(routes := s.counts.routes + 1))
         case Err(e) => s.(error := Some(e)))
      case PutSshRoute(r) =>
        (match InsertOrIgnoreSshRoute(s.db, r)
         case Ok(db) => s.(db := db, counts := s.counts.(sshRoutes := s.counts.sshRoutes + 1))
         case Err(e) => s.(error := Some(e)))
      case PutAudit(row) =>
        (match InsertAudit(s.db, row)
         case Ok(db) => s.(db := db)
         case Err(e) => s.(error := Some(e)))
  }

  // The state after a list of statements.
  function Run(s: Progress, p: seq<Stmt>): Progress {
    if p == [] then s else Step(Run(s, p[..|p| - 1]), p[|p| - 1])
  }

  // The random identifiers one restore draws (one per certificate, one for the audit entry), and its clock.
  datatype Draws = Draws(keyId: nat -> string, auditId: string, now: int)

  function CertStmts(cs: seq<BackupCert>, keyId: nat -> string): seq<Stmt> {
    if cs == [] then []
    else CertStmts(cs[..|cs| - 1], keyId) + [PutCert(cs[|cs| - 1]), PutKey(cs[|cs| - 1], keyId(|cs| - 1))]
  }

  function CaStmt(c: BackupCa): Stmt { PutCa(c) }
  function SshKeyStmt(k: BackupSshKey): Stmt { PutSshKey(k) }
  function AppStmt(a: AppRow): Stmt { PutApp(a) }
  function RouteStmt(r: RouteRow): Stmt { PutRoute(r) }
  function SshRouteStmt(r: SshRouteRow): Stmt { PutSshRoute(r) }

  function AuditEntry(d: Draws): AuditRow { AuditRow(d.auditId, "backup_restored", None, d.now) }

  function Inserts(p: Payload, keyId: nat -> string): seq<Stmt> {
    Map(CaStmt, p.caCerts) + CertStmts(p.certs, keyId) + Map(SshKeyStmt, p.sshKeys)
    + Map(AppStmt, p.apps) + Map(RouteStmt, p.routes) + Map(SshRouteStmt, p.sshRoutes)
  }

  function Program(p: Payload, d: Draws): seq<Stmt> { Inserts(p, d.keyId) + [PutAudit(AuditEntry(d))] }

  function Restore(db: Db, p: Payload, d: Draws): Progress { Run(Start(db), Program(p, d)) }

  lemma RunSnoc(s: Progress, p: seq<Stmt>, st: Stmt)
    ensures Run(s, p + [st]) == Step(Run(s, p), st)
  {
    assert (p + [st])[..|p|] == p;
  }

  lemma {:induction false} RunConcat(s: Progress, p: seq<Stmt>, q: seq<Stmt>)
    ensures Run(s, p + q) == Run(Run(s, p), q)
  {
    if q == [] {
      assert p + q == p;
    } else {
      RunConcat(s, p, q[..|q| - 1]);
      assert (p + q)[..|p + q| - 1] == p + q[..|q| - 1];
    }
  }

  lemma {:induction false} RunStops(s: Progress, p: seq<Stmt>)
    requires s.error.Some?
    ensures Run(s, p) == s
  {
    if p != [] {
      RunStops(s, p[..|p| - 1]);
    }
  }
}
