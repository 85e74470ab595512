/** Restoring between stores that do not agree. */
module Clash {
  import opened Wrappers
  import opened Schema
  import opened Backup
  import opened RestoreRuns
  import opened RestoreExact
  import opened RoundTrip
  import opened StoreOps
  import opened StoreHistory

  // A new route of the backup whose certificate the target holds under another id stops the restore.
  lemma KnownUnderAnotherId(t: Db, src: Db, now: int, d: Draws, r: RouteRow, c: CertRow)
    requires SchemaOk(src) && OneKeyAtMost(src)
    requires r in src.routes && c in src.certs && r.certId == c.id
    requires !HasRoute(t, r.id) && HasFingerprint(t, c.fingerprint) && !HasCert(t, c.id)
    ensures Restore(t, Collect(src, now), d).error.Some?
  {
    var p := Collect(src, now);
    RestoreSucceedsIff(t, p, d);
    JoinCertsKeyed(src.certs, src.keys);
    forall i | 0 <= i < |p.certs| && p.certs[i].id == c.id ensures !CertIsNew(t, p.certs, i) {
      var x := Unpacked(p.certs)[i];
      assert x in Unpacked(p.certs) && x in src.certs && x.id == c.id;
      var j :| 0 <= j < |src.certs| && src.certs[j] == x;
      var k :| 0 <= k < |src.certs| && src.certs[k] == c;
      assert CertId(src.certs[j]) == CertId(src.certs[k]);
    }
    assert !CertComes(t, p, r.certId);
    var i :| 0 <= i < |src.routes| && src.routes[i] == r;
    assert forall j :: 0 <= j < i ==> RouteId(src.routes[j]) != RouteId(src.routes[i]);
    assert !RoutesGoIn(t, p);
  }

  // One certificate is imported on two machines, each drawing its own id, and routed on the second.
  function Here(c: CertRow, id: string, keyId: string, m: KeyMaterial, auditId: string): seq<Op> {
    [ImportOp(c.(id := id), keyId, m, auditId)]
  }

  function There(
    c: CertRow, id: string, keyId: string, m: KeyMaterial, auditId: string,
    x: RouteArgs, routeId: string, now: int): seq<Op>
  {
    Here(c, id, keyId, m, auditId) + [AddRouteOp(x, routeId, now)]
  }

  // The second machine's backup can never be restored on the first, though every row it shares with
  // the first has a matching fingerprint.
  lemma IndependentImportsClash(
    c: CertRow, hereId: string, thereId: string, keyId: string, m: KeyMaterial, auditId: string,
    x: RouteArgs, routeId: string, now: int, d: Draws)
    requires hereId != thereId && x.cert == c.name && x.app.None?
    ensures var here := After(EMPTY_DB, Here(c, hereId, keyId, m, auditId));
      var there := After(EMPTY_DB, There(c, thereId, keyId, m, auditId, x, routeId, now));
      Restore(here, Collect(there, now), d).error.Some?
  {
    var imported := c.(id := thereId);
    var here := After(EMPTY_DB, Here(c, hereId, keyId, m, auditId));
    var there := After(EMPTY_DB, There(c, thereId, keyId, m, auditId, x, routeId, now));
    ImportedAlone(c.(id := hereId), keyId, m, auditId);
    ImportedAndRouted(c, thereId, keyId, m, auditId, x, routeId, now);
    HistoryKeepsSchema(There(c, thereId, keyId, m, auditId, x, routeId, now));
    HistoryKeepsOneKeyAtMost(There(c, thereId, keyId, m, auditId, x, routeId, now));
    assert there.routes[0] in there.routes && there.certs[0] in there.certs && here.certs[0] in here.certs;
    KnownUnderAnotherId(here, there, now, d, there.routes[0], imported);
  }

  lemma ImportedAlone(c: CertRow, keyId: string, m: KeyMaterial, auditId: string)
    ensures var db := After(EMPTY_DB, [ImportOp(c, keyId, m, auditId)]);
      db.certs == [c] && db.routes == [] && db.apps == []
  {
    var ops := [ImportOp(c, keyId, m, auditId)];
    assert ops[..0] == [] && After(EMPTY_DB, ops[..0]) == EMPTY_DB;
    var one := InsertCert(EMPTY_DB, c).value;
    assert c in one.certs && HasCert(one, c.id);
  }

  lemma ImportedAndRouted(
    c: CertRow, id: string, keyId: string, m: KeyMaterial, auditId: string,
    x: RouteArgs, routeId: string, now: int)
    requires x.cert == c.name && x.app.None?
    ensures var db := After(EMPTY_DB, There(c, id, keyId, m, auditId, x, routeId, now));
      db.certs == [c.(id := id)] && |db.routes| == 1 && db.routes[0].certId == id
  {
    var ops := There(c, id, keyId, m, auditId, x, routeId, now);
    assert ops[..1] == Here(c, id, keyId, m, auditId);
    ImportedAlone(c.(id := id), keyId, m, auditId);
    var one := After(EMPTY_DB, ops[..1]);
    assert one.certs[0] in one.certs && HasCert(one, id);
    var r := RouteOf(x, routeId, id, None, now);
    assert After(EMPTY_DB, ops) == one.(routes := [r]);
  }
}
