/** The tables of the credential store, and the constraints SQLite enforces on
    the statements the store issues. A table is the sequence of its rows in
    insertion order. */
module Schema {
  import opened Wrappers
  import opened Seqs
  import opened Tables

  // `name` is the label column.
  datatype CertRow = CertRow(
    id: string, name: string, certDer: Bytes, fingerprint: string, subject: string,
    issuer: string, notBefore: int, notAfter: int, createdAt: int)

  datatype KeyRow = KeyRow(
    id: string, certId: string, algorithm: string, keyEnc: Bytes, keySalt: Bytes, keyNonce: Bytes)

  datatype SshKeyRow = SshKeyRow(
    id: string, name: string, publicKey: string, algorithm: string,
    keyEnc: Bytes, keySalt: Bytes, keyNonce: Bytes, createdAt: int)

  datatype CaRow = CaRow(
    id: string, name: string, certPem: string, fingerprint: string, subject: string,
    notAfter: int, systemFile: Option<string>, createdAt: int)

  datatype AppRow = AppRow(
    id: string, name: string, exePath: string, exeHash: string, registeredAt: int)

  datatype RouteRow = RouteRow(
    id: string, certId: string, appId: Option<string>, matchType: string,
    pattern: Option<string>, requireBoth: bool, priority: int, createdAt: int)

  datatype SshRouteRow = SshRouteRow(
    id: string, sshKeyId: string, appId: Option<string>, hostPattern: Option<string>, createdAt: int)

  datatype IntegrityRow = IntegrityRow(
    id: string, component: string, path: string, sha256: string, version: string,
    recordedAt: int, verifiedAt: Option<int>)

  datatype AuditRow = AuditRow(id: string, eventType: string, certId: Option<string>, occurredAt: int)

  datatype Db = Db(
    certs: seq<CertRow>, keys: seq<KeyRow>, sshKeys: seq<SshKeyRow>, caCerts: seq<CaRow>,
    apps: seq<AppRow>, routes: seq<RouteRow>, sshRoutes: seq<SshRouteRow>,
    integrity: seq<IntegrityRow>, audit: seq<AuditRow>)

  // What the migrations leave in a new database file.
  const EMPTY_DB := Db([], [], [], [], [], [], [], [], [])

  datatype StoreError =
    | Locked
    | NotFound
    | Constraint        // PRIMARY KEY or UNIQUE violated
    | ForeignKey
    | BadImport         // malformed hex in a backup, or an unusable import
    | WrongPassphrase
    | Crypto            // a key that does not decrypt, or of unknown algorithm
    | IntegrityFailure

  // ---- column lookups -------------------------------------------------------

  function CertId(r: CertRow): string { r.id }
  function CertFingerprint(r: CertRow): string { r.fingerprint }
  function KeyId(r: KeyRow): string { r.id }
  function KeyCert(r: KeyRow): string { r.certId }
  function SshKeyId(r: SshKeyRow): string { r.id }
  function CaId(r: CaRow): string { r.id }
  function CaFingerprint(r: CaRow): string { r.fingerprint }
  function AppId(r: AppRow): string { r.id }
  function AppExe(r: AppRow): string { r.exePath }
  function RouteId(r: RouteRow): string { r.id }
  function SshRouteId(r: SshRouteRow): string { r.id }
  function AuditId(r: AuditRow): string { r.id }
  function IntegrityId(r: IntegrityRow): string { r.id }

  predicate HasCert(db: Db, id: string) { Has(CertId, db.certs, id) }
  predicate HasFingerprint(db: Db, fp: string) { Has(CertFingerprint, db.certs, fp) }
  predicate HasKey(db: Db, id: string) { Has(KeyId, db.keys, id) }
  predicate HasSshKey(db: Db, id: string) { Has(SshKeyId, db.sshKeys, id) }
  predicate HasCa(db: Db, id: string) { Has(CaId, db.caCerts, id) }
  predicate HasCaFingerprint(db: Db, fp: string) { Has(CaFingerprint, db.caCerts, fp) }
  predicate HasApp(db: Db, id: string) { Has(AppId, db.apps, id) }
  predicate HasExe(db: Db, path: string) { Has(AppExe, db.apps, path) }
  predicate HasRoute(db: Db, id: string) { Has(RouteId, db.routes, id) }
  predicate HasSshRoute(db: Db, id: string) { Has(SshRouteId, db.sshRoutes, id) }
  predicate HasAudit(db: Db, id: string) { Has(AuditId, db.audit, id) }
  predicate HasIntegrity(db: Db, id: string) { Has(IntegrityId, db.integrity, id) }

  predicate AppRefOk(db: Db, appId: Option<string>) { appId.Some? ==> HasApp(db, appId.value) }

  // ---- INSERT statements ----------------------------------------------------

  function InsertCert(db: Db, r: CertRow): Result<Db, StoreError> {
    if HasCert(db, r.id) || HasFingerprint(db, r.fingerprint) then Err(Constraint)
    else Ok(db.(certs := db.certs + [r]))
  }

  function InsertKey(db: Db, r: KeyRow): Result<Db, StoreError> {
    if HasKey(db, r.id) then Err(Constraint)
    else if !HasCert(db, r.certId) then Err(ForeignKey)
    else Ok(db.(keys := db.keys + [r]))
  }

  function InsertSshKey(db: Db, r: SshKeyRow): Result<Db, StoreError> {
    if HasSshKey(db, r.id) then Err(Constraint) else Ok(db.(sshKeys := db.sshKeys + [r]))
  }

  function InsertCa(db: Db, r: CaRow): Result<Db, StoreError> {
    if HasCa(db, r.id) || HasCaFingerprint(db, r.fingerprint) then Err(Constraint)
    else Ok(db.(caCerts := db.caCerts + [r]))
  }

  function InsertApp(db: Db, r: AppRow): Result<Db, StoreError> {
    if HasApp(db, r.id) || HasExe(db, r.exePath) then Err(Constraint)
    else Ok(db.(apps := db.apps + [r]))
  }

  predicate RouteRefsOk(db: Db, r: RouteRow) { HasCert(db, r.certId) && AppRefOk(db, r.appId) }
  predicate SshRouteRefsOk(db: Db, r: SshRouteRow) { HasSshKey(db, r.sshKeyId) && AppRefOk(db, r.appId) }

  function InsertRoute(db: Db, r: RouteRow): Result<Db, StoreError> {
    if HasRoute(db, r.id) then Err(Constraint)
    else if !RouteRefsOk(db, r) then Err(ForeignKey)
    else Ok(db.(routes := db.routes + [r]))
  }

  // OR IGNORE forgives a taken primary key, never a dangling reference.
  function InsertOrIgnoreRoute(db: Db, r: RouteRow): Result<Db, StoreError> {
    if HasRoute(db, r.id) then Ok(db)
    else if !RouteRefsOk(db, r) then Err(ForeignKey)
    else Ok(db.(routes := db.routes + [r]))
  }

  function InsertOrIgnoreSshRoute(db: Db, r: SshRouteRow): Result<Db, StoreError> {
    if HasSshRoute(db, r.id) then Ok(db)
    else if !SshRouteRefsOk(db, r) then Err(ForeignKey)
    else Ok(db.(sshRoutes := db.sshRoutes + [r]))
  }

  function InsertAudit(db: Db, r: AuditRow): Result<Db, StoreError> {
    if HasAudit(db, r.id) then Err(Constraint) else Ok(db.(audit := db.audit + [r]))
  }

  function AnotherRecord(id: string): IntegrityRow -> bool { (r: IntegrityRow) => r.id != id }

  // OR REPLACE removes the row whose primary key it meets.
  function InsertOrReplaceIntegrity(db: Db, r: IntegrityRow): Db {
    db.(integrity := Filter(AnotherRecord(r.id), db.integrity) + [r])
  }

  function StampVerified(now: int): IntegrityRow -> IntegrityRow {
    (r: IntegrityRow) => r.(verifiedAt := Some(now))
  }

  // UPDATE integrity SET verified_at = ?
  function MarkVerified(db: Db, now: int): Db { db.(integrity := Map(StampVerified(now), db.integrity)) }

  // ---- DELETE FROM certs, with ON DELETE CASCADE on keys and routes ----------

  function AnotherCert(id: string): CertRow -> bool { (c: CertRow) => c.id != id }
  function KeyOfOther(id: string): KeyRow -> bool { (k: KeyRow) => k.certId != id }
  function RouteToOther(id: string): RouteRow -> bool { (r: RouteRow) => r.certId != id }

  function DeleteCertRow(db: Db, id: string): Db {
    db.(certs := Filter(AnotherCert(id), db.certs),
        keys := Filter(KeyOfOther(id), db.keys),
        routes := Filter(RouteToOther(id), db.routes))
  }

  // ---- the schema's promises ------------------------------------------------

  // PRIMARY KEY and UNIQUE columns.
  predicate KeysDistinct(db: Db) {
    && DistinctBy(CertId, db.certs) && DistinctBy(CertFingerprint, db.certs)
    && DistinctBy(KeyId, db.keys)
    && DistinctBy(SshKeyId, db.sshKeys)
    && DistinctBy(CaId, db.caCerts) && DistinctBy(CaFingerprint, db.caCerts)
    && DistinctBy(AppId, db.apps) && DistinctBy(AppExe, db.apps)
    && DistinctBy(RouteId, db.routes)
    && DistinctBy(SshRouteId, db.sshRoutes)
    && DistinctBy(AuditId, db.audit)
    && DistinctBy(IntegrityId, db.integrity)
  }

  // Every foreign key resolves.
  predicate RefsResolve(db: Db) {
    && (forall k :: k in db.keys ==> HasCert(db, k.certId))
    && (forall r :: r in db.routes ==> RouteRefsOk(db, r))
    && (forall r :: r in db.sshRoutes ==> SshRouteRefsOk(db, r))
  }

  predicate SchemaOk(db: Db) { KeysDistinct(db) && RefsResolve(db) }

  predicate HasKeyFor(db: Db, certId: string) { Has(KeyCert, db.keys, certId) }

  // Each certificate owns exactly one key row.
  predicate OneKeyEach(db: Db) {
    && (forall c :: c in db.certs ==> HasKeyFor(db, c.id))
    && DistinctBy(KeyCert, db.keys)
  }

  // The certificates without a key row.
  function Keyless(db: Db): set<string> { set c | c in db.certs && !HasKeyFor(db, c.id) :: c.id }

  // Key rows stand in the order of their certificates.
  predicate KeysAligned(db: Db) {
    && |db.keys| == |db.certs|
    && forall i :: 0 <= i < |db.certs| ==> db.keys[i].certId == db.certs[i].id
  }

  lemma AlignedMeansOneKeyEach(db: Db)
    requires KeysDistinct(db) && KeysAligned(db)
    ensures OneKeyEach(db)
  {
    forall c | c in db.certs ensures HasKeyFor(db, c.id) {
      var i :| 0 <= i < |db.certs| && db.certs[i] == c;
      assert db.keys[i] in db.keys;
    }
    forall i, j | 0 <= i < j < |db.keys| ensures KeyCert(db.keys[i]) != KeyCert(db.keys[j]) {
      assert CertId(db.certs[i]) != CertId(db.certs[j]);
    }
  }
}
