/** What `route add` writes, column by column, and which requests the new row serves. */
module RouteAdded {
  import opened Wrappers
  import opened Seqs
  import opened Sorting
  import opened Tables
  import opened Schema
  import opened StoreOps
  import opened Routing
  import opened RouteRule

  // The first app with the label, in table order.
  ghost predicate FirstApp(apps: seq<AppRow>, i: nat, name: string)
    requires i < |apps|
  {
    apps[i].name == name && forall j :: 0 <= j < i ==> apps[j].name != name
  }

  lemma {:induction false} AppNamedAt(apps: seq<AppRow>, name: string) returns (i: nat)
    requires AppNamed(apps, name).Some?
    ensures i < |apps| && FirstApp(apps, i, name) && AppNamed(apps, name) == Some(apps[i])
  {
    if apps[0].name == name {
      i := 0;
    } else {
      i := AppNamedAt(apps[1..], name);
      assert forall j :: 0 < j < |apps| ==> apps[1..][j - 1] == apps[j];
      i := i + 1;
    }
  }

  function Labelled(name: string): AppRow -> bool { (a: AppRow) => a.name == name }

  lemma {:induction false} AppNamedIsFirst(apps: seq<AppRow>, name: string)
    ensures var same := Filter(Labelled(name), apps);
      AppNamed(apps, name) == if same == [] then None else Some(same[0])
  {
    if apps != [] {
      AppNamedIsFirst(apps[1..], name);
    }
  }

  // Listing the apps by label does not change which one a label stands for.
  lemma ListedAppNamed(apps: seq<AppRow>, name: string)
    ensures AppNamed(ListApps(apps), name) == AppNamed(apps, name)
  {
    TextBeforeTotal(name, name);
    StableSortKeepsTies(NamedBefore, Labelled(name), apps);
    AppNamedIsFirst(apps, name);
    AppNamedIsFirst(ListApps(apps), name);
  }

  // The row the command asks for: its own id, priority, mode and time, the host if one is given, else the
  // address.
  predicate IsRowOf(r: RouteRow, x: RouteArgs, id: string, now: int) {
    && r.id == id && r.requireBoth == x.requireBoth && r.priority == x.priority && r.createdAt == now
    && r.pattern == (if x.host.Some? then x.host else x.ip)
    && r.matchType == (if x.host == None && x.ip.Some? then "ip" else "hostname")
  }

  // The certificate and the app are the first stored under the given labels.
  ghost predicate NamesOf(db: Db, r: RouteRow, x: RouteArgs) {
    && (exists i :: 0 <= i < |db.certs| && IsFirstNamed(db.certs, i, x.cert) && r.certId == db.certs[i].id)
    && (if x.app.None? then r.appId == None
        else exists i :: 0 <= i < |db.apps| && FirstApp(db.apps, i, x.app.value) && r.appId == Some(db.apps[i].id))
  }

  // Success exactly if the labels are known and the id is new; then one row goes in, as asked for.
  lemma AddRouteExactly(db: Db, x: RouteArgs, id: string, now: int)
    ensures var after := AddRoute(db, x, id, now);
      var known := (exists c :: c in db.certs && c.name == x.cert)
        && (x.app.None? || exists a :: a in db.apps && a.name == x.app.value);
      && (after.error == Some(NotFound) <==> !known)
      && (after.error == Some(Constraint) <==> known && exists r :: r in db.routes && r.id == id)
      && (after.error.None? <==> known && forall r :: r in db.routes ==> r.id != id)
      && (after.error.Some? ==> after.db == db)
      && (after.error.None? ==>
            && |after.db.routes| == |db.routes| + 1
            && var r := after.db.routes[|db.routes|];
               && after.db == db.(routes := db.routes + [r]) && IsRowOf(r, x, id, now) && NamesOf(db, r, x))
  {
    CertNamedFinds(db.certs, x.cert);
    if x.app.Some? {
      ListedAppNamed(db.apps, x.app.value);
      AppNamedFinds(db.apps, x.app.value);
    }
    if CertNamed(db.certs, x.cert).Some? {
      var c := CertNamedAt(db.certs, x.cert);
      if x.app.Some? && AppNamed(db.apps, x.app.value).Some? {
        var a := AppNamedAt(db.apps, x.app.value);
      }
    }
  }

  // An app goes in exactly if its id and its path are new, and is then found at its path.
  lemma AddAppExactly(db: Db, a: AppRow)
    requires DistinctBy(AppExe, db.apps)
    ensures var after := AddApp(db, a);
      && (after.error.None? <==> forall b :: b in db.apps ==> b.id != a.id && b.exePath != a.exePath)
      && (after.error.Some? ==> after == Outcome(db, Some(Constraint)))
      && (after.error.None? ==>
            && after.db == db.(apps := db.apps + [a])
            && QueryFor(after.db, Some(a.exePath), None, None).appId == Some(a.id))
  {
    var after := AddApp(db, a);
    if after.error.None? {
      assert forall b :: b in db.apps ==> b.exePath != a.exePath;
      AppendDistinct(AppExe, db.apps, a);
      ListedAppAt(after.db, a.exePath);
      AppAtFinds(after.db.apps, a.exePath);
      assert a in after.db.apps;
      assert forall b :: b in after.db.apps ==> b in db.apps || b == a;
    }
  }

  // A route of higher priority than the rest answers exactly the requests it was added for, and the others
  // get the answers they had.
  lemma AddedRouteServes(
    db: Db, x: RouteArgs, id: string, now: int, exe: Option<string>, host: Option<string>, ip: Option<string>)
    requires AddRoute(db, x, id, now).error.None? && DistinctBy(AppExe, db.apps)
    requires forall r :: r in db.routes ==> r.priority < x.priority
    ensures var after := AddRoute(db, x, id, now).db;
      |after.routes| > |db.routes| && var r := after.routes[|db.routes|];
      var app := x.app == None || exists a :: a in db.apps && exe == Some(a.exePath) && r.appId == Some(a.id);
      var remote :=
        if x.host.Some? then host == x.host
        else if x.ip.Some? then ip == x.ip
        else true;
      Resolve(after, exe, host, ip) ==
        if (app && remote) || (!x.requireBoth && (app || remote)) then Some(r.certId) else Resolve(db, exe, host, ip)
  {
    AddRouteExactly(db, x, id, now);
    var after := AddRoute(db, x, id, now).db;
    var r := after.routes[|db.routes|];
    var q := QueryFor(db, exe, host, ip);
    MeetsIff(db, r, exe, host, ip);
    WinnerIsTop(q, db.routes);
    NewRouteWinsOrNothingChanges(q, db.routes, r);
  }

  // Without an app and with both restrictions required, only the remote end counts.
  lemma RemoteOnlyRouteServes(
    db: Db, x: RouteArgs, id: string, now: int, exe: Option<string>, host: Option<string>, ip: Option<string>)
    requires AddRoute(db, x, id, now).error.None? && x.requireBoth && x.app == None
    ensures var after := AddRoute(db, x, id, now).db;
      |after.routes| > |db.routes| &&
      (Meets(after, after.routes[|db.routes|], exe, host, ip) <==>
         if x.host.Some? then host == x.host else x.ip == None || ip == x.ip)
  {
    AddRouteExactly(db, x, id, now);
  }
}
