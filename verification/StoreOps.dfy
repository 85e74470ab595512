/** The store's single operations, as the statements they issue. Each returns the
    tables it leaves, also when it fails part way. */
module StoreOps {
  import opened Wrappers
  import opened Seqs
  import opened Tables
  import opened Schema
  import opened Keys
  import opened Routing

  datatype Outcome = Outcome(db: Db, error: Option<StoreError>)

  // ---- import: certificate, key, audit entry ---------------------------------------

  // The encrypted key of an imported certificate.
  datatype KeyMaterial = KeyMaterial(algorithm: KeyAlgorithm, enc: Bytes, salt: Bytes, nonce: Bytes)

  function KeyFor(c: CertRow, keyId: string, m: KeyMaterial): KeyRow {
    KeyRow(keyId, c.id, AlgorithmName(m.algorithm), m.enc, m.salt, m.nonce)
  }

  function Import(db: Db, c: CertRow, keyId: string, m: KeyMaterial, auditId: string): Outcome {
    match InsertCert(db, c)
    case Err(e) => Outcome(db, Some(e))
    case Ok(db1) =>
      match InsertKey(db1, KeyFor(c, keyId, m))
      case Err(e) => Outcome(db1, Some(e))
      case Ok(db2) =>
        match InsertAudit(db2, AuditRow(auditId, "cert_imported", Some(c.id), c.createdAt))
        case Err(e) => Outcome(db2, Some(e))
        case Ok(db3) => Outcome(db3, None)
  }

  // Killed after n of its three statements.
  function CutImport(db: Db, c: CertRow, keyId: string, m: KeyMaterial, auditId: string, n: nat): Db {
    if n >= 3 then Import(db, c, keyId, m, auditId).db
    else if n == 0 then db
    else
      match InsertCert(db, c)
      case Err(_) => db
      case Ok(db1) =>
        if n == 1 then db1
        else
          match InsertKey(db1, KeyFor(c, keyId, m))
          case Err(_) => db1
          case Ok(db2) => db2
  }

  // ---- lookups -----------------------------------------------------------------------

  function CertNamed(certs: seq<CertRow>, name: string): Option<CertRow> {
    if certs == [] then None
    else if certs[0].name == name then Some(certs[0])
    else CertNamed(certs[1..], name)
  }

  function CertById(certs: seq<CertRow>, id: string): Option<CertRow> {
    if certs == [] then None
    else if certs[0].id == id then Some(certs[0])
    else CertById(certs[1..], id)
  }

  function AppNamed(apps: seq<AppRow>, name: string): Option<AppRow> {
    if apps == [] then None
    else if apps[0].name == name then Some(apps[0])
    else AppNamed(apps[1..], name)
  }

  lemma {:induction false} CertNamedFinds(certs: seq<CertRow>, name: string)
    ensures CertNamed(certs, name).Some? ==>
      CertNamed(certs, name).value in certs && CertNamed(certs, name).value.name == name
    ensures CertNamed(certs, name).None? ==> forall c :: c in certs ==> c.name != name
  {
    if certs != [] {
      assert certs == [certs[0]] + certs[1..];
      CertNamedFinds(certs[1..], name);
    }
  }

  lemma {:induction false} CertByIdFinds(certs: seq<CertRow>, id: string)
    ensures CertById(certs, id).Some? <==> Has(CertId, certs, id)
    ensures CertById(certs, id).Some? ==> CertById(certs, id).value in certs && CertById(certs, id).value.id == id
  {
    if certs != [] {
      HasInParts(CertId, certs, id);
      CertByIdFinds(certs[1..], id);
    }
  }

  lemma {:induction false} AppNamedFinds(apps: seq<AppRow>, name: string)
    ensures AppNamed(apps, name).Some? ==>
      AppNamed(apps, name).value in apps && AppNamed(apps, name).value.name == name
    ensures AppNamed(apps, name).None? ==> forall a :: a in apps ==> a.name != name
  {
    if apps != [] {
      assert apps == [apps[0]] + apps[1..];
      AppNamedFinds(apps[1..], name);
    }
  }

  // ---- delete, app and route commands --------------------------------------------------

  function DeleteCert(db: Db, name: string, auditId: string, now: int): Outcome {
    match CertNamed(db.certs, name)
    case None => Outcome(db, Some(NotFound))
    case Some(c) =>
      var db1 := DeleteCertRow(db, c.id);
      match InsertAudit(db1, AuditRow(auditId, "cert_deleted", Some(c.id), now))
      case Err(e) => Outcome(db1, Some(e))
      case Ok(db2) => Outcome(db2, None)
  }

  // The first certificate of the label goes, with the keys and routes that name it, and a log entry is
  // added; if its id is taken, the rows are gone all the same.
  ghost predicate IsDeletion(db: Db, name: string, auditId: string, now: int, after: Outcome) {
    && (after.error == Some(NotFound) <==> forall c :: c in db.certs ==> c.name != name)
    && (after.error == Some(NotFound) ==> after.db == db)
    && (after.error != Some(NotFound) ==>
          exists i :: 0 <= i < |db.certs| && IsFirstNamed(db.certs, i, name) &&
            WithoutCert(db, db.certs[i].id, after.db) &&
            after.error == (if HasAudit(db, auditId) then Some(Constraint) else None) &&
            after.db.audit == db.audit +
              if HasAudit(db, auditId) then [] else [AuditRow(auditId, "cert_deleted", Some(db.certs[i].id), now)])
  }

  ghost predicate IsFirstNamed(certs: seq<CertRow>, i: nat, name: string)
    requires i < |certs|
  {
    certs[i].name == name && forall j :: 0 <= j < i ==> certs[j].name != name
  }

  ghost predicate WithoutCert(db: Db, id: string, after: Db) {
    && (forall c :: c in after.certs <==> c in db.certs && c.id != id)
    && (forall k :: k in after.keys <==> k in db.keys && k.certId != id)
    && (forall r :: r in after.routes <==> r in db.routes && r.certId != id)
    && after == db.(certs := after.certs, keys := after.keys, routes := after.routes, audit := after.audit)
  }

  lemma {:induction false} CertNamedAt(certs: seq<CertRow>, name: string) returns (i: nat)
    requires CertNamed(certs, name).Some?
    ensures i < |certs| && IsFirstNamed(certs, i, name) && CertNamed(certs, name) == Some(certs[i])
  {
    if certs[0].name == name {
      i := 0;
    } else {
      i := CertNamedAt(certs[1..], name);
      assert forall j :: 0 < j < |certs| ==> certs[1..][j - 1] == certs[j];
      i := i + 1;
    }
  }

  lemma DeleteExactly(db: Db, name: string, auditId: string, now: int)
    ensures IsDeletion(db, name, auditId, now, DeleteCert(db, name, auditId, now))
  {
    CertNamedFinds(db.certs, name);
    if CertNamed(db.certs, name).Some? {
      var i := CertNamedAt(db.certs, name);
    }
  }

  // Killed after n of its two statements.
  function CutDelete(db: Db, name: string, auditId: string, now: int, n: nat): Db {
    if n >= 2 then DeleteCert(db, name, auditId, now).db
    else if n == 0 || CertNamed(db.certs, name).None? then db
    else DeleteCertRow(db, CertNamed(db.certs, name).value.id)
  }

  function AddApp(db: Db, a: AppRow): Outcome {
    match InsertApp(db, a)
    case Err(e) => Outcome(db, Some(e))
    case Ok(db1) => Outcome(db1, None)
  }

  datatype RouteArgs = RouteArgs(
    cert: string, app: Option<string>, host: Option<string>, ip: Option<string>,
    requireBoth: bool, priority: int)

  // A host takes precedence over an address.
  function RouteOf(x: RouteArgs, id: string, certId: string, appId: Option<string>, now: int): RouteRow {
    var (matchType, pattern) :=
      if x.host.Some? then ("hostname", x.host) else if x.ip.Some? then ("ip", x.ip) else ("hostname", None);
    RouteRow(id, certId, appId, matchType, pattern, x.requireBoth, x.priority, now)
  }

  function AddRoute(db: Db, x: RouteArgs, id: string, now: int): Outcome {
    match CertNamed(db.certs, x.cert)
    case None => Outcome(db, Some(NotFound))
    case Some(c) =>
      if x.app.Some? && AppNamed(ListApps(db.apps), x.app.value).None? then Outcome(db, Some(NotFound))
      else
        var appId := if x.app.None? then None else Some(AppNamed(ListApps(db.apps), x.app.value).value.id);
        match InsertRoute(db, RouteOf(x, id, c.id, appId, now))
        case Err(e) => Outcome(db, Some(e))
        case Ok(db1) => Outcome(db1, None)
  }

  // SQL's LIKE: '%' stands for any text, '_' for any character, letters match either case.
  function Fold(c: char): char {
    if 'A' <= c <= 'Z' then (c as int - 'A' as int + 'a' as int) as char else c
  }

  predicate Like(p: string, s: string)
    decreases |p| + |s|
  {
    if p == "" then s == ""
    else if p[0] == '%' then Like(p[1..], s) || (s != "" && Like(p, s[1..]))
    else s != "" && (p[0] == '_' || Fold(p[0]) == Fold(s[0])) && Like(p[1..], s[1..])
  }

  predicate RouteNamed(arg: string, id: string) { id == arg || Like(arg + "%", id) }

  function RouteKept(arg: string): RouteRow -> bool { (r: RouteRow) => !RouteNamed(arg, r.id) }

  function RemoveRoutes(db: Db, arg: string): Db { db.(routes := Filter(RouteKept(arg), db.routes)) }

  predicate LowerHex(s: string) { forall i :: 0 <= i < |s| ==> '0' <= s[i] <= '9' || 'a' <= s[i] <= 'f' }

  lemma {:induction false} AnythingMatchesPercent(s: string)
    ensures Like("%", s)
  {
    if s == "" {
      assert Like("%"[1..], s);
    } else {
      AnythingMatchesPercent(s[1..]);
    }
  }

  // Character by character, '_' for any, letters in either case.
  predicate BeginsLike(arg: string, id: string) {
    |arg| <= |id| && forall i :: 0 <= i < |arg| ==> arg[i] == '_' || Fold(arg[i]) == Fold(id[i])
  }

  // For every argument without '%', removal takes exactly the routes whose id begins with it so read.
  lemma {:induction false} LikeIsPrefix(arg: string, id: string)
    requires '%' !in arg
    ensures Like(arg + "%", id) <==> BeginsLike(arg, id)
  {
    if arg == "" {
      assert arg + "%" == "%";
      AnythingMatchesPercent(id);
    } else {
      var p := arg + "%";
      assert p[1..] == arg[1..] + "%" && p[0] == arg[0] && arg == [arg[0]] + arg[1..];
      if id != "" {
        LikeIsPrefix(arg[1..], id[1..]);
        assert forall i :: 0 <= i < |arg[1..]| ==> arg[1..][i] == arg[i + 1];
        assert forall i :: 0 <= i < |id[1..]| ==> id[1..][i] == id[i + 1];
        HeadAndTailBeginLike(arg, id);
      }
    }
  }

  lemma HeadAndTailBeginLike(arg: string, id: string)
    requires arg != "" && id != ""
    ensures BeginsLike(arg, id) <==> (arg[0] == '_' || Fold(arg[0]) == Fold(id[0])) && BeginsLike(arg[1..], id[1..])
  {
    assert forall i :: 0 < i < |arg| ==> arg[1..][i - 1] == arg[i];
    assert forall i :: 0 < i < |id| ==> id[1..][i - 1] == id[i];
    if BeginsLike(arg[1..], id[1..]) && (arg[0] == '_' || Fold(arg[0]) == Fold(id[0])) {
      forall i | 0 <= i < |arg| ensures arg[i] == '_' || Fold(arg[i]) == Fold(id[i]) {
        if i > 0 {
          assert arg[1..][i - 1] == '_' || Fold(arg[1..][i - 1]) == Fold(id[1..][i - 1]);
        }
      }
    }
  }

  lemma RemovesByPrefix(db: Db, arg: string, r: RouteRow)
    requires '%' !in arg
    ensures r in RemoveRoutes(db, arg).routes <==> r in db.routes && !BeginsLike(arg, r.id)
  {
    LikeIsPrefix(arg, r.id);
  }

  // On lower-case hexadecimal text, as the store draws its ids, that is the plain prefix.
  lemma BeginsLikeIsPrefix(arg: string, id: string)
    requires LowerHex(arg) && LowerHex(id)
    ensures BeginsLike(arg, id) <==> arg <= id
  {
    if BeginsLike(arg, id) {
      assert arg == id[..|arg|];
    }
  }

  predicate IsLetter(c: char) { 'a' <= c <= 'z' || 'A' <= c <= 'Z' }

  predicate IsPlain(c: char) { c != '%' && c != '_' && !IsLetter(c) }

  // Text that agrees with the argument character by character is matched, '%' matching itself too.
  lemma {:induction false} LikePointwise(arg: string, id: string)
    requires |arg| == |id|
    requires forall i :: 0 <= i < |arg| ==> arg[i] == id[i] || arg[i] == '_' || Fold(arg[i]) == Fold(id[i])
    ensures Like(arg + "%", id)
  {
    if arg == "" {
      assert arg + "%" == "%";
      AnythingMatchesPercent(id);
    } else {
      var p := arg + "%";
      assert p[1..] == arg[1..] + "%" && p[0] == arg[0];
      LikePointwise(arg[1..], id[1..]);
      if arg[0] == '%' {
        assert Like(p[1..], id[1..]) && Like(p, id[1..]);
      }
    }
  }

  // And a '%' may stand for nothing.
  lemma {:induction false} LikeWithout(front: string, back: string)
    ensures Like(front + "%" + back + "%", front + back)
  {
    var p, s := front + "%" + back + "%", front + back;
    if front == "" {
      LikePointwise(back, back);
      assert p[0] == '%' && p[1..] == back + "%" && s == back;
    } else {
      assert p[0] == front[0] && p[1..] == front[1..] + "%" + back + "%";
      assert s[0] == front[0] && s[1..] == front[1..] + back;
      LikeWithout(front[1..], back);
      if front[0] == '%' {
        assert Like(p[1..], s[1..]) && Like(p, s[1..]);
      }
    }
  }

  function OtherChar(c: char): (d: char)
    ensures !IsPlain(c) && c != '%' ==> d != c && (c == '_' || Fold(c) == Fold(d))
  {
    if 'a' <= c <= 'z' then (c as int - 'a' as int + 'A' as int) as char
    else if 'A' <= c <= 'Z' then (c as int - 'A' as int + 'a' as int) as char
    else '0'
  }

  // An id that the argument takes though it does not begin with it.
  lemma TakesTooMuch(arg: string, i: nat) returns (id: string)
    requires i < |arg| && !IsPlain(arg[i])
    ensures RouteNamed(arg, id) && !(arg <= id)
  {
    if arg[i] == '%' {
      id := arg[..i] + arg[i + 1..];
      LikeWithout(arg[..i], arg[i + 1..]);
      assert arg == arg[..i] + "%" + arg[i + 1..];
    } else {
      id := arg[i := OtherChar(arg[i])];
      LikePointwise(arg, id);
      assert id[i] != arg[i];
    }
  }

  lemma PlainTakesPrefixes(arg: string, id: string)
    requires forall i :: 0 <= i < |arg| ==> IsPlain(arg[i])
    ensures RouteNamed(arg, id) <==> arg <= id
  {
    LikeIsPrefix(arg, id);
    if BeginsLike(arg, id) {
      assert forall i :: 0 <= i < |arg| ==> arg[i] == id[i];
      assert arg == id[..|arg|];
    }
  }

  // Removal takes exactly the ids that begin with the argument, whatever ids there are, exactly when
  // the argument holds no '%', no '_' and no letter.
  lemma RemovesPrefixIff(arg: string)
    ensures (forall id :: RouteNamed(arg, id) <==> arg <= id) <==> forall i :: 0 <= i < |arg| ==> IsPlain(arg[i])
  {
    if forall i :: 0 <= i < |arg| ==> IsPlain(arg[i]) {
      forall id ensures RouteNamed(arg, id) <==> arg <= id {
        PlainTakesPrefixes(arg, id);
      }
    } else {
      var i :| 0 <= i < |arg| && !IsPlain(arg[i]);
      var id := TakesTooMuch(arg, i);
    }
  }

  // A lone '%' removes every route.
  lemma PercentRemovesAll(db: Db)
    ensures RemoveRoutes(db, "%").routes == []
  {
    forall r | r in db.routes ensures RouteNamed("%", r.id) {
      AnythingMatchesPercent(r.id);
      assert "%" + "%" == "%%" && "%%"[1..] == "%";
    }
    FilterNone(RouteKept("%"), db.routes);
  }
}
