/** What one store operation finds, undoes or leaves of another. */
module StoreUndo {
  import opened Wrappers
  import opened Seqs
  import opened Schema
  import opened Keys
  import opened StoreOps
  import opened Routing

  // ---- import, then look up ----------------------------------------------------------

  lemma {:induction false} CertNamedSnoc(certs: seq<CertRow>, c: CertRow, name: string)
    ensures CertNamed(certs + [c], name) ==
      if CertNamed(certs, name).Some? then CertNamed(certs, name) else if c.name == name then Some(c) else None
  {
    if certs == [] {
      assert certs + [c] == [c];
    } else {
      assert (certs + [c])[1..] == certs[1..] + [c];
      CertNamedSnoc(certs[1..], c, name);
    }
  }

  lemma {:induction false} CertByIdSnoc(certs: seq<CertRow>, c: CertRow, id: string)
    ensures CertById(certs + [c], id) ==
      if CertById(certs, id).Some? then CertById(certs, id) else if c.id == id then Some(c) else None
  {
    if certs == [] {
      assert certs + [c] == [c];
    } else {
      assert (certs + [c])[1..] == certs[1..] + [c];
      CertByIdSnoc(certs[1..], c, id);
    }
  }

  lemma {:induction false} FirstKeySnoc(keys: seq<KeyRow>, k: KeyRow, certId: string)
    ensures FirstKey(keys + [k], certId) ==
      if FirstKey(keys, certId).Some? then FirstKey(keys, certId) else if k.certId == certId then Some(k) else None
  {
    if keys == [] {
      assert keys + [k] == [k];
    } else {
      assert (keys + [k])[1..] == keys[1..] + [k];
      FirstKeySnoc(keys[1..], k, certId);
    }
  }

  // An import succeeds exactly when all that must be unique is; then the certificate is found by its
  // id, its key by the certificate, and by its label unless an older certificate has the same one.
  lemma ImportedIsFound(db: Db, c: CertRow, keyId: string, m: KeyMaterial, auditId: string)
    requires SchemaOk(db)
    ensures var o := Import(db, c, keyId, m, auditId);
      && (o.error.None? <==>
            !HasCert(db, c.id) && !HasFingerprint(db, c.fingerprint) && !HasKey(db, keyId) && !HasAudit(db, auditId))
      && (o.error.None? ==>
            && CertById(o.db.certs, c.id) == Some(c)
            && FirstKey(o.db.keys, c.id) == Some(KeyFor(c, keyId, m))
            && (CertNamed(o.db.certs, c.name) == Some(c) <==> CertNamed(db.certs, c.name).None?))
  {
    if InsertCert(db, c).Ok? {
      assert c in db.certs + [c];
      assert HasCert(InsertCert(db, c).value, c.id);
      CertByIdSnoc(db.certs, c, c.id);
      CertByIdFinds(db.certs, c.id);
      CertNamedSnoc(db.certs, c, c.name);
      CertNamedFinds(db.certs, c.name);
      FirstKeySnoc(db.keys, KeyFor(c, keyId, m), c.id);
      FirstKeyFinds(db.keys, c.id);
      if CertNamed(db.certs, c.name).Some? {
        assert HasCert(db, CertNamed(db.certs, c.name).value.id);
      }
    }
  }

  // If encryption under the master passphrase can be undone, the imported key is retrieved.
  lemma ImportedKeyIsRetrieved(
    db: Db, c: CertRow, keyId: string, m: KeyMaterial, auditId: string, decrypt: Cipher, master: Bytes, der: Bytes)
    requires SchemaOk(db) && Import(db, c, keyId, m, auditId).error.None?
    requires decrypt(KeyBox(m.enc, m.salt, m.nonce), master) == Some(der)
    ensures PlainKey(Import(db, c, keyId, m, auditId).db.keys, c.id, decrypt, master) == Ok((der, m.algorithm))
  {
    ImportedIsFound(db, c, keyId, m, auditId);
    AlgorithmRoundTrip(m.algorithm);
  }

  // ---- one operation undoes another ----------------------------------------------------

  lemma RowsUndone(db: Db, c: CertRow, k: KeyRow)
    requires RefsResolve(db) && !HasCert(db, c.id) && k.certId == c.id
    ensures Filter(AnotherCert(c.id), db.certs + [c]) == db.certs
    ensures Filter(KeyOfOther(c.id), db.keys + [k]) == db.keys
    ensures Filter(RouteToOther(c.id), db.routes) == db.routes
  {
    FilterSnoc(AnotherCert(c.id), db.certs, c);
    FilterSnoc(KeyOfOther(c.id), db.keys, k);
    FilterAll(AnotherCert(c.id), db.certs);
    FilterAll(KeyOfOther(c.id), db.keys);
    assert forall r :: r in db.routes ==> RouteRefsOk(db, r);
    FilterAll(RouteToOther(c.id), db.routes);
  }

  // An import leaves three new rows: the certificate, its key with the algorithm's name, a log entry.
  lemma ImportedRows(db: Db, c: CertRow, keyId: string, m: KeyMaterial, auditId: string)
    requires Import(db, c, keyId, m, auditId).error.None?
    ensures Import(db, c, keyId, m, auditId).db == db.(
      certs := db.certs + [c], keys := db.keys + [KeyFor(c, keyId, m)],
      audit := db.audit + [AuditRow(auditId, "cert_imported", Some(c.id), c.createdAt)])
    ensures KeyFor(c, keyId, m) == KeyRow(keyId, c.id, KeyFor(c, keyId, m).algorithm, m.enc, m.salt, m.nonce)
    ensures Names(KeyFor(c, keyId, m).algorithm, m.algorithm)
  {
    AlgorithmRoundTrip(m.algorithm);
  }

  // With the label in use, the deletion takes the older certificate, with its key and its routes, and
  // leaves the one just imported.
  lemma DeleteTakesOlder(
    db: Db, c: CertRow, keyId: string, m: KeyMaterial, auditId: string, next: string, now: int, older: CertRow)
    requires SchemaOk(db) && CertNamed(db.certs, c.name) == Some(older)
    requires Import(db, c, keyId, m, auditId).error.None?
    ensures var two := DeleteCert(Import(db, c, keyId, m, auditId).db, c.name, next, now).db;
      && HasCert(two, c.id) && HasKeyFor(two, c.id)
      && HasCert(db, older.id) && !HasCert(two, older.id) && !HasKeyFor(two, older.id)
      && forall r :: r in two.routes ==> r.certId != older.id
  {
    ImportedRows(db, c, keyId, m, auditId);
    CertNamedSnoc(db.certs, c, c.name);
    CertNamedFinds(db.certs, c.name);
    var one := Import(db, c, keyId, m, auditId).db;
    assert HasCert(db, older.id);
    var kept := DeleteCertRow(one, older.id);
    assert c in kept.certs && KeyFor(c, keyId, m) in kept.keys;
  }

  // Deleting by label a certificate just imported restores every table but the log exactly when no
  // older certificate has that label.
  lemma DeleteUndoesImportIff(
    db: Db, c: CertRow, keyId: string, m: KeyMaterial, auditId: string, next: string, now: int)
    requires SchemaOk(db) && Import(db, c, keyId, m, auditId).error.None?
    ensures var one := Import(db, c, keyId, m, auditId).db;
      var two := DeleteCert(one, c.name, next, now).db;
      && (two.(audit := one.audit) == db.(audit := one.audit) <==> CertNamed(db.certs, c.name).None?)
      && one.audit <= two.audit
  {
    ImportedIsFound(db, c, keyId, m, auditId);
    ImportedRows(db, c, keyId, m, auditId);
    if CertNamed(db.certs, c.name).None? {
      RowsUndone(db, c, KeyFor(c, keyId, m));
    } else {
      DeleteTakesOlder(db, c, keyId, m, auditId, next, now, CertNamed(db.certs, c.name).value);
    }
  }

  // Removing a route just added restores the store, unless the new id begins an older route's.
  lemma RemoveUndoesAdd(db: Db, x: RouteArgs, id: string, now: int)
    requires AddRoute(db, x, id, now).error.None?
    ensures RemoveRoutes(AddRoute(db, x, id, now).db, id) == db <==>
      forall r :: r in db.routes ==> !RouteNamed(id, r.id)
  {
    var added := AddRoute(db, x, id, now).db.routes;
    FilterSnoc(RouteKept(id), db.routes, added[|db.routes|]);
    assert added == db.routes + [added[|db.routes|]];
    if forall r :: r in db.routes ==> !RouteNamed(id, r.id) {
      FilterAll(RouteKept(id), db.routes);
    }
  }

  // A new route changes an answer only to its own certificate.
  lemma AddedRouteAnswers(
    db: Db, x: RouteArgs, id: string, now: int, exe: Option<string>, host: Option<string>, ip: Option<string>)
    requires AddRoute(db, x, id, now).error.None?
    ensures var after := AddRoute(db, x, id, now).db;
      && CertNamed(db.certs, x.cert).Some?
      && (Resolve(after, exe, host, ip) == Resolve(db, exe, host, ip)
          || Resolve(after, exe, host, ip) == Some(CertNamed(db.certs, x.cert).value.id))
  {
    var after := AddRoute(db, x, id, now).db;
    NewRouteWinsOrNothingChanges(QueryFor(db, exe, host, ip), db.routes, after.routes[|db.routes|]);
    assert after.routes == db.routes + [after.routes[|db.routes|]];
  }
}
