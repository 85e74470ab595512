/** What holds in every state the store can reach. */
module StoreHistory {
  import opened Wrappers
  import opened Seqs
  import opened Schema
  import opened Backup
  import opened RestoreRuns
  import opened RestoreExact
  import opened KeyLoss
  import opened Keys
  import opened RoundTrip
  import opened StoreOps
  import opened Routing

  datatype Op =
    | ImportOp(cert: CertRow, keyId: string, material: KeyMaterial, importAudit: string)
    | DeleteOp(name: string, deleteAudit: string, deletedAt: int)
    | AddAppOp(app: AppRow)
    | AddRouteOp(args: RouteArgs, routeId: string, addedAt: int)
    | RemoveRoutesOp(arg: string)
    | RestoreOp(payload: Payload, draws: Draws)
    // killed after some of their statements
    | CutImportOp(cutCert: CertRow, cutKeyId: string, cutMaterial: KeyMaterial, cutAudit: string, importSteps: nat)
    | CutDeleteOp(cutName: string, cutDeleteAudit: string, cutAt: int, deleteSteps: nat)
    | CutRestoreOp(cutPayload: Payload, cutDraws: Draws, restoreSteps: nat)
    | AuditOp(entry: AuditRow)            // backup taken, certificate exported
    | RecordOp(row: IntegrityRow)
    | VerifiedOp(verifiedAt: int)

  function Cut(db: Db, p: Payload, d: Draws, n: nat): Progress {
    var program := Program(p, d);
    Run(Start(db), if n < |program| then program[..n] else program)
  }

  function Apply(db: Db, op: Op): Db {
    match op
    case ImportOp(c, keyId, m, auditId) => Import(db, c, keyId, m, auditId).db
    case DeleteOp(name, auditId, now) => DeleteCert(db, name, auditId, now).db
    case AddAppOp(a) => AddApp(db, a).db
    case AddRouteOp(x, id, now) => AddRoute(db, x, id, now).db
    case RemoveRoutesOp(arg) => RemoveRoutes(db, arg)
    case RestoreOp(p, d) => Restore(db, p, d).db
    case CutImportOp(c, keyId, m, auditId, n) => CutImport(db, c, keyId, m, auditId, n)
    case CutDeleteOp(name, auditId, now, n) => CutDelete(db, name, auditId, now, n)
    case CutRestoreOp(p, d, n) => Cut(db, p, d, n).db
    case AuditOp(row) => (match InsertAudit(db, row) case Ok(db1) => db1 case Err(_) => db)
    case RecordOp(row) => InsertOrReplaceIntegrity(db, row)
    case VerifiedOp(now) => MarkVerified(db, now)
  }

  function After(db: Db, ops: seq<Op>): Db {
    if ops == [] then db else Apply(After(db, ops[..|ops| - 1]), ops[|ops| - 1])
  }

  // ---- the schema's constraints ----------------------------------------------------

  lemma DeleteKeepsSchema(db: Db, id: string)
    requires SchemaOk(db)
    ensures SchemaOk(DeleteCertRow(db, id))
  {
    var db1 := DeleteCertRow(db, id);
    FilterKeepsDistinct(AnotherCert(id), CertId, db.certs);
    FilterKeepsDistinct(AnotherCert(id), CertFingerprint, db.certs);
    FilterKeepsDistinct(KeyOfOther(id), KeyId, db.keys);
    FilterKeepsDistinct(RouteToOther(id), RouteId, db.routes);
    forall other | other != id && HasCert(db, other) ensures HasCert(db1, other) {
      var c :| c in db.certs && c.id == other;
      assert c in db1.certs;
    }
    forall r | r in db1.routes ensures RouteRefsOk(db1, r) {
      assert RouteRefsOk(db, r);
    }
    forall r | r in db1.sshRoutes ensures SshRouteRefsOk(db1, r) {
      assert SshRouteRefsOk(db, r);
    }
  }

  lemma RemoveKeepsSchema(db: Db, arg: string)
    requires SchemaOk(db)
    ensures SchemaOk(RemoveRoutes(db, arg))
  {
    FilterKeepsDistinct(RouteKept(arg), RouteId, db.routes);
    var db1 := RemoveRoutes(db, arg);
    forall r | r in db1.routes ensures RouteRefsOk(db1, r) {
      assert RouteRefsOk(db, r);
    }
    forall r | r in db1.sshRoutes ensures SshRouteRefsOk(db1, r) {
      assert SshRouteRefsOk(db, r);
    }
  }

  lemma IntegrityKeepsSchema(db: Db, rows: seq<IntegrityRow>)
    requires SchemaOk(db) && DistinctBy(IntegrityId, rows)
    ensures SchemaOk(db.(integrity := rows))
  {
    var db1 := db.(integrity := rows);
    forall r | r in db1.routes ensures RouteRefsOk(db1, r) {
      assert RouteRefsOk(db, r);
    }
    forall r | r in db1.sshRoutes ensures SshRouteRefsOk(db1, r) {
      assert SshRouteRefsOk(db, r);
    }
  }

  lemma RecordKeepsSchema(db: Db, row: IntegrityRow)
    requires SchemaOk(db)
    ensures SchemaOk(InsertOrReplaceIntegrity(db, row))
  {
    FilterKeepsDistinct(AnotherRecord(row.id), IntegrityId, db.integrity);
    AppendDistinct(IntegrityId, Filter(AnotherRecord(row.id), db.integrity), row);
    IntegrityKeepsSchema(db, InsertOrReplaceIntegrity(db, row).integrity);
  }

  lemma MarkKeepsSchema(db: Db, now: int)
    requires SchemaOk(db)
    ensures SchemaOk(MarkVerified(db, now))
  {
    var rows := MarkVerified(db, now).integrity;
    forall i, j | 0 <= i < j < |rows| ensures IntegrityId(rows[i]) != IntegrityId(rows[j]) {
      assert IntegrityId(db.integrity[i]) != IntegrityId(db.integrity[j]);
    }
    IntegrityKeepsSchema(db, rows);
  }

  lemma ImportKeepsSchema(db: Db, c: CertRow, keyId: string, m: KeyMaterial, auditId: string)
    requires SchemaOk(db)
    ensures SchemaOk(Import(db, c, keyId, m, auditId).db)
    ensures forall n: nat :: SchemaOk(CutImport(db, c, keyId, m, auditId, n))
  {
    var one := InsertCert(db, c);
    if one.Ok? {
      InsertCertKeepsSchema(db, c);
      var two := InsertKey(one.value, KeyFor(c, keyId, m));
      if two.Ok? {
        InsertKeyKeepsSchema(one.value, KeyFor(c, keyId, m));
        var entry := AuditRow(auditId, "cert_imported", Some(c.id), c.createdAt);
        if InsertAudit(two.value, entry).Ok? {
          InsertAuditKeepsSchema(two.value, entry);
        }
      }
    }
  }

  lemma DeleteCertKeepsSchema(db: Db, name: string, auditId: string, now: int)
    requires SchemaOk(db)
    ensures SchemaOk(DeleteCert(db, name, auditId, now).db)
    ensures forall n: nat :: SchemaOk(CutDelete(db, name, auditId, now, n))
  {
    if CertNamed(db.certs, name).Some? {
      var c := CertNamed(db.certs, name).value;
      DeleteKeepsSchema(db, c.id);
      var entry := AuditRow(auditId, "cert_deleted", Some(c.id), now);
      if InsertAudit(DeleteCertRow(db, c.id), entry).Ok? {
        InsertAuditKeepsSchema(DeleteCertRow(db, c.id), entry);
      }
    }
  }

  lemma AddRouteKeepsSchema(db: Db, x: RouteArgs, id: string, now: int)
    requires SchemaOk(db)
    ensures SchemaOk(AddRoute(db, x, id, now).db)
  {
    if AddRoute(db, x, id, now).error.None? {
      var appId := if x.app.None? then None else Some(AppNamed(ListApps(db.apps), x.app.value).value.id);
      InsertRouteKeepsSchema(db, RouteOf(x, id, CertNamed(db.certs, x.cert).value.id, appId, now));
    }
  }

  lemma CutKeepsSchema(db: Db, p: Payload, d: Draws, n: nat)
    requires SchemaOk(db)
    ensures SchemaOk(Cut(db, p, d, n).db)
  {
    var program := Program(p, d);
    RunKeepsSchema(Start(db), if n < |program| then program[..n] else program);
  }

  predicate IsCommand(op: Op) { op.AddAppOp? || op.AddRouteOp? || op.RemoveRoutesOp? || op.AuditOp? }

  lemma CommandKeepsSchema(db: Db, op: Op)
    requires SchemaOk(db) && IsCommand(op)
    ensures SchemaOk(Apply(db, op))
  {
    match op
    case AddAppOp(a) => if InsertApp(db, a).Ok? { InsertAppKeepsSchema(db, a); }
    case AddRouteOp(x, id, now) => AddRouteKeepsSchema(db, x, id, now);
    case RemoveRoutesOp(arg) => RemoveKeepsSchema(db, arg);
    case AuditOp(row) => if InsertAudit(db, row).Ok? { InsertAuditKeepsSchema(db, row); }
  }

  lemma ApplyKeepsSchema(db: Db, op: Op)
    requires SchemaOk(db)
    ensures SchemaOk(Apply(db, op))
  {
    if IsCommand(op) {
      CommandKeepsSchema(db, op);
    } else {
      match op
      case ImportOp(c, keyId, m, auditId) => ImportKeepsSchema(db, c, keyId, m, auditId);
      case DeleteOp(name, auditId, now) => DeleteCertKeepsSchema(db, name, auditId, now);
      case RestoreOp(p, d) => CutKeepsSchema(db, p, d, |Program(p, d)|);
      case CutImportOp(c, keyId, m, auditId, _) => ImportKeepsSchema(db, c, keyId, m, auditId);
      case CutDeleteOp(name, auditId, now, _) => DeleteCertKeepsSchema(db, name, auditId, now);
      case CutRestoreOp(p, d, n) => CutKeepsSchema(db, p, d, n);
      case RecordOp(row) => RecordKeepsSchema(db, row);
      case VerifiedOp(now) => MarkKeepsSchema(db, now);
    }
  }

  // Every history, failures and interrupted restores included, keeps primary keys and UNIQUE columns
  // distinct and every reference resolved.
  lemma {:induction false} HistoryKeepsSchema(ops: seq<Op>)
    ensures SchemaOk(After(EMPTY_DB, ops))
  {
    if ops != [] {
      HistoryKeepsSchema(ops[..|ops| - 1]);
      ApplyKeepsSchema(After(EMPTY_DB, ops[..|ops| - 1]), ops[|ops| - 1]);
    }
  }

  // ---- never two key rows for one certificate -------------------------------------------

  lemma ImportKeepsOneKeyAtMost(db: Db, c: CertRow, keyId: string, m: KeyMaterial, auditId: string)
    requires SchemaOk(db) && OneKeyAtMost(db)
    ensures OneKeyAtMost(Import(db, c, keyId, m, auditId).db)
    ensures forall n: nat :: OneKeyAtMost(CutImport(db, c, keyId, m, auditId, n))
  {
    if InsertCert(db, c).Ok? {
      NewCertHasNoKey(db, c);
      AppendDistinct(KeyCert, db.keys, KeyFor(c, keyId, m));
    }
  }

  lemma DeleteKeepsOneKeyAtMost(db: Db, name: string, auditId: string, now: int, n: nat)
    requires OneKeyAtMost(db)
    ensures OneKeyAtMost(DeleteCert(db, name, auditId, now).db) && OneKeyAtMost(CutDelete(db, name, auditId, now, n))
  {
    if CertNamed(db.certs, name).Some? {
      FilterKeepsDistinct(KeyOfOther(CertNamed(db.certs, name).value.id), KeyCert, db.keys);
    }
  }

  lemma CutKeepsOneKeyAtMost(db: Db, p: Payload, d: Draws, n: nat)
    requires SchemaOk(db) && OneKeyAtMost(db)
    ensures OneKeyAtMost(Cut(db, p, d, n).db)
  {
    var program := Program(p, d);
    assert program[..|program|] == program;
    RestoreKeepsOneKeyAtMost(db, p, d, if n < |program| then n else |program|);
  }

  predicate LeavesKeys(op: Op) {
    op.AddAppOp? || op.AddRouteOp? || op.RemoveRoutesOp? || op.AuditOp? || op.RecordOp? || op.VerifiedOp?
  }

  lemma KeysLeft(db: Db, op: Op)
    requires LeavesKeys(op)
    ensures Apply(db, op).keys == db.keys && Apply(db, op).certs == db.certs
  {
  }

  lemma ApplyKeepsOneKeyAtMost(db: Db, op: Op)
    requires SchemaOk(db) && OneKeyAtMost(db)
    ensures OneKeyAtMost(Apply(db, op))
  {
    if LeavesKeys(op) {
      KeysLeft(db, op);
    } else {
      match op
      case ImportOp(c, keyId, m, auditId) => ImportKeepsOneKeyAtMost(db, c, keyId, m, auditId);
      case CutImportOp(c, keyId, m, auditId, _) => ImportKeepsOneKeyAtMost(db, c, keyId, m, auditId);
      case DeleteOp(name, auditId, now) => DeleteKeepsOneKeyAtMost(db, name, auditId, now, 0);
      case CutDeleteOp(name, auditId, now, n) => DeleteKeepsOneKeyAtMost(db, name, auditId, now, n);
      case RestoreOp(p, d) => CutKeepsOneKeyAtMost(db, p, d, |Program(p, d)|);
      case CutRestoreOp(p, d, n) => CutKeepsOneKeyAtMost(db, p, d, n);
    }
  }

  // Every history, kills and repeated ids included, gives no certificate two key rows.
  lemma {:induction false} HistoryKeepsOneKeyAtMost(ops: seq<Op>)
    ensures OneKeyAtMost(After(EMPTY_DB, ops))
  {
    if ops != [] {
      HistoryKeepsSchema(ops[..|ops| - 1]);
      HistoryKeepsOneKeyAtMost(ops[..|ops| - 1]);
      ApplyKeepsOneKeyAtMost(After(EMPTY_DB, ops[..|ops| - 1]), ops[|ops| - 1]);
    }
  }

  // ---- and which certificates have none ------------------------------------------------------

  // The certificate is refused, by its id or its fingerprint.
  predicate CertRefused(db: Db, c: CertRow) { HasCert(db, c.id) || HasFingerprint(db, c.fingerprint) }

  // The certificates an operation leaves without a key: one whose key id is taken, or one it is killed
  // right after.
  function Lost(db: Db, op: Op): set<string> {
    match op
    case ImportOp(c, keyId, _, _) => if !CertRefused(db, c) && HasKey(db, keyId) then {c.id} else {}
    case CutImportOp(c, keyId, _, _, n) =>
      if n > 0 && !CertRefused(db, c) && (n == 1 || HasKey(db, keyId)) then {c.id} else {}
    case RestoreOp(p, d) => LostIds(db, p, d.keyId, |Program(p, d)|)
    case CutRestoreOp(p, d, n) => LostIds(db, p, d.keyId, n)
    case _ => {}
  }

  // The certificate it deletes.
  function Deleted(db: Db, op: Op): set<string> {
    match op
    case DeleteOp(name, _, _) => NamedId(db, name)
    case CutDeleteOp(name, _, _, n) => if n > 0 then NamedId(db, name) else {}
    case _ => {}
  }

  function NamedId(db: Db, name: string): set<string> {
    if CertNamed(db.certs, name).Some? then {CertNamed(db.certs, name).value.id} else {}
  }

  lemma ImportKeyless(db: Db, c: CertRow, keyId: string, m: KeyMaterial, auditId: string)
    requires SchemaOk(db)
    ensures Keyless(Import(db, c, keyId, m, auditId).db) ==
      Keyless(db) + if !CertRefused(db, c) && HasKey(db, keyId) then {c.id} else {}
    ensures forall n: nat :: n < 3 ==>
      Keyless(CutImport(db, c, keyId, m, auditId, n)) ==
        Keyless(db) + if n > 0 && !CertRefused(db, c) && (n == 1 || HasKey(db, keyId)) then {c.id} else {}
  {
    if InsertCert(db, c).Ok? {
      var db1 := InsertCert(db, c).value;
      CertAddsKeyless(db, c);
      assert c in db1.certs && HasCert(db1, c.id);
      var k := KeyFor(c, keyId, m);
      KeyTakesKeyless(db1, k);
      assert forall x :: x in db.certs ==> HasCert(db, x.id);
      if InsertKey(db1, k).Ok? {
        var db2 := InsertKey(db1, k).value;
        SameKeyless(db2, Import(db, c, keyId, m, auditId).db);
      }
    }
  }

  lemma DeleteKeyless(db: Db, id: string)
    ensures Keyless(DeleteCertRow(db, id)) == Keyless(db) - {id}
  {
    var db1 := DeleteCertRow(db, id);
    assert forall other :: other != id ==> (HasKeyFor(db1, other) <==> HasKeyFor(db, other)) by {
      forall k | k in db.keys && k.certId != id ensures k in db1.keys {
        assert KeyOfOther(id)(k);
      }
    }
    assert forall c :: c in db1.certs <==> c in db.certs && c.id != id;
  }

  lemma CutKeyless(db: Db, p: Payload, d: Draws, n: nat)
    requires SchemaOk(db)
    ensures Keyless(Cut(db, p, d, n).db) == Keyless(db) + LostIds(db, p, d.keyId, n)
  {
    if n < |Program(p, d)| {
      RestoreKeyless(db, p, d, n);
    } else {
      WholeRestoreKeyless(db, p, d);
      ProgramParts(p, d);
      LostIdsPastCerts(db, p, d.keyId, n, |Program(p, d)|);
    }
  }

  lemma DeleteOpKeyless(db: Db, name: string, auditId: string, now: int, n: nat)
    ensures Keyless(DeleteCert(db, name, auditId, now).db) == Keyless(db) - NamedId(db, name)
    ensures Keyless(CutDelete(db, name, auditId, now, n)) == Keyless(db) - if n > 0 then NamedId(db, name) else {}
  {
    if CertNamed(db.certs, name).Some? {
      var id := CertNamed(db.certs, name).value.id;
      DeleteKeyless(db, id);
      SameKeyless(DeleteCertRow(db, id), DeleteCert(db, name, auditId, now).db);
    }
  }

  // Every operation, on every store the schema allows, leaves without a key those certificates that had
  // none and are not deleted, and those it loses.
  lemma ApplyKeyless(db: Db, op: Op)
    requires SchemaOk(db)
    ensures Keyless(Apply(db, op)) == Keyless(db) - Deleted(db, op) + Lost(db, op)
  {
    if LeavesKeys(op) {
      KeysLeft(db, op);
      SameKeyless(db, Apply(db, op));
    } else {
      match op
      case ImportOp(c, keyId, m, auditId) => ImportKeyless(db, c, keyId, m, auditId);
      case CutImportOp(c, keyId, m, auditId, _) => ImportKeyless(db, c, keyId, m, auditId);
      case DeleteOp(name, auditId, now) => DeleteOpKeyless(db, name, auditId, now, 0);
      case CutDeleteOp(name, auditId, now, n) => DeleteOpKeyless(db, name, auditId, now, n);
      case RestoreOp(p, d) => WholeRestoreKeyless(db, p, d);
      case CutRestoreOp(p, d, n) => CutKeyless(db, p, d, n);
    }
  }

  // The certificates lost in a history and not deleted since.
  function StillLost(ops: seq<Op>): set<string> {
    if ops == [] then {}
    else
      var n := |ops| - 1;
      var db := After(EMPTY_DB, ops[..n]);
      StillLost(ops[..n]) - Deleted(db, ops[n]) + Lost(db, ops[n])
  }

  // Over every history they are exactly the certificates without a key.
  lemma {:induction false} HistoryKeyless(ops: seq<Op>)
    ensures Keyless(After(EMPTY_DB, ops)) == StillLost(ops)
  {
    if ops != [] {
      var n := |ops| - 1;
      HistoryKeyless(ops[..n]);
      HistoryKeepsSchema(ops[..n]);
      ApplyKeyless(After(EMPTY_DB, ops[..n]), ops[n]);
    }
  }

  lemma HistoryKeysIff(ops: seq<Op>)
    ensures OneKeyEach(After(EMPTY_DB, ops)) <==> StillLost(ops) == {}
  {
    var db := After(EMPTY_DB, ops);
    HistoryKeyless(ops);
    HistoryKeepsOneKeyAtMost(ops);
    forall c | c in db.certs && !HasKeyFor(db, c.id) ensures c.id in Keyless(db) {
    }
  }

  // ---- answers always lead to a certificate and its key ---------------------------------

  lemma ResolvedCertExists(db: Db, exe: Option<string>, host: Option<string>, ip: Option<string>)
    requires SchemaOk(db) && Resolve(db, exe, host, ip).Some?
    ensures CertById(db.certs, Resolve(db, exe, host, ip).value).Some?
    ensures OneKeyEach(db) ==> FirstKey(db.keys, Resolve(db, exe, host, ip).value).Some?
  {
    var q := QueryFor(db, exe, host, ip);
    var id := Resolve(db, exe, host, ip).value;
    WinnerIsTop(q, db.routes);
    assert RouteRefsOk(db, Winner(q, db.routes).value);
    CertByIdFinds(db.certs, id);
    FirstKeyFinds(db.keys, id);
  }

  // In every reachable state a routed certificate can be looked up.
  lemma NoDanglingAnswer(ops: seq<Op>, exe: Option<string>, host: Option<string>, ip: Option<string>)
    ensures var db := After(EMPTY_DB, ops);
      Resolve(db, exe, host, ip).Some? ==> CertById(db.certs, Resolve(db, exe, host, ip).value).Some?
  {
    HistoryKeepsSchema(ops);
    if Resolve(After(EMPTY_DB, ops), exe, host, ip).Some? {
      ResolvedCertExists(After(EMPTY_DB, ops), exe, host, ip);
    }
  }

  lemma KeyedIff(ops: seq<Op>, id: string)
    requires HasCert(After(EMPTY_DB, ops), id)
    ensures HasKeyFor(After(EMPTY_DB, ops), id) <==> id !in StillLost(ops)
  {
    var db := After(EMPTY_DB, ops);
    HistoryKeyless(ops);
    var c :| c in db.certs && c.id == id;
    assert id in Keyless(db) <==> !HasKeyFor(db, id);
  }

  // And it has a key to sign with exactly if it is not one that was lost.
  lemma AnswerHasKeyIff(ops: seq<Op>, exe: Option<string>, host: Option<string>, ip: Option<string>)
    requires Resolve(After(EMPTY_DB, ops), exe, host, ip).Some?
    ensures var db := After(EMPTY_DB, ops);
      var id := Resolve(db, exe, host, ip).value;
      FirstKey(db.keys, id).Some? <==> id !in StillLost(ops)
  {
    var db := After(EMPTY_DB, ops);
    var id := Resolve(db, exe, host, ip).value;
    NoDanglingAnswer(ops, exe, host, ip);
    CertByIdFinds(db.certs, id);
    KeyedIff(ops, id);
    FirstKeyFinds(db.keys, id);
  }

  // The backup of every reachable store can be restored into an empty one exactly when no route names a
  // certificate that was lost.
  lemma HistoryBackupRestorableIff(ops: seq<Op>, now: int, d: Draws)
    requires FreshKeys(EMPTY_DB, d.keyId)
    ensures var db := After(EMPTY_DB, ops);
      Restore(EMPTY_DB, Collect(db, now), d).error.None? <==>
        forall r :: r in db.routes ==> r.certId !in StillLost(ops)
  {
    var db := After(EMPTY_DB, ops);
    HistoryKeepsSchema(ops);
    HistoryKeepsOneKeyAtMost(ops);
    BackupRestorableIff(db, now, d);
    forall r | r in db.routes ensures HasKeyFor(db, r.certId) <==> r.certId !in StillLost(ops) {
      assert RouteRefsOk(db, r);
      KeyedIff(ops, r.certId);
    }
  }

  function KilledImport(c: CertRow, keyId: string, m: KeyMaterial, auditId: string): seq<Op> {
    [CutImportOp(c, keyId, m, auditId, 1)]
  }

  lemma KilledImportLeaves(c: CertRow, keyId: string, m: KeyMaterial, auditId: string)
    ensures After(EMPTY_DB, KilledImport(c, keyId, m, auditId)) == EMPTY_DB.(certs := [c])
    ensures StillLost(KilledImport(c, keyId, m, auditId)) == {c.id}
  {
    var ops := KilledImport(c, keyId, m, auditId);
    assert ops[..0] == [] && After(EMPTY_DB, ops[..0]) == EMPTY_DB;
  }

  lemma AddRouteToOne(c: CertRow, x: RouteArgs, routeId: string, now: int)
    requires x.cert == c.name && x.app.None?
    ensures var db := EMPTY_DB.(certs := [c]);
      AddRoute(db, x, routeId, now).db == db.(routes := [RouteOf(x, routeId, c.id, None, now)])
  {
    var db := EMPTY_DB.(certs := [c]);
    assert c in db.certs && HasCert(db, c.id);
  }

  // Any certificate whose import is killed before its key, and any route to it: the backup taken then
  // cannot be restored.
  lemma KilledImportSpoilsBackup(
    c: CertRow, keyId: string, m: KeyMaterial, auditId: string, x: RouteArgs, routeId: string, now: int, d: Draws)
    requires x.cert == c.name && x.app.None? && FreshKeys(EMPTY_DB, d.keyId)
    ensures var ops := KilledImport(c, keyId, m, auditId) + [AddRouteOp(x, routeId, now)];
      Restore(EMPTY_DB, Collect(After(EMPTY_DB, ops), now), d).error.Some?
  {
    var first := KilledImport(c, keyId, m, auditId);
    var ops := first + [AddRouteOp(x, routeId, now)];
    KilledImportLeaves(c, keyId, m, auditId);
    assert ops[..1] == first;
    var one := After(EMPTY_DB, first);
    var r := RouteOf(x, routeId, c.id, None, now);
    AddRouteToOne(c, x, routeId, now);
    assert After(EMPTY_DB, ops) == one.(routes := [r]);
    assert StillLost(ops) == StillLost(first) - Deleted(one, ops[1]) + Lost(one, ops[1]);
    HistoryBackupRestorableIff(ops, now, d);
    assert After(EMPTY_DB, ops).routes[0] == r && r in After(EMPTY_DB, ops).routes;
  }

  // A deleted certificate is never the answer, and every answer that named another one stands.
  lemma DeleteAnswers(db: Db, id: string, exe: Option<string>, host: Option<string>, ip: Option<string>)
    ensures Resolve(DeleteCertRow(db, id), exe, host, ip) != Some(id)
    ensures Resolve(db, exe, host, ip) != Some(id) ==>
      Resolve(DeleteCertRow(db, id), exe, host, ip) == Resolve(db, exe, host, ip)
  {
    var q := QueryFor(db, exe, host, ip);
    WinnerIsTop(q, Filter(RouteToOther(id), db.routes));
    if CertOf(Winner(q, db.routes)) != Some(id) {
      LosingCertIsIrrelevant(q, db.routes, id);
    }
  }
}
