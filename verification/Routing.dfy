/** Which certificate a process presents: route eligibility, and the ranking the
    one-pass resolver computes. */
module Routing {
  import opened Wrappers
  import opened Seqs
  import opened Sorting
  import opened Schema

  datatype MatchType = Hostname | Ip | IpCidr

  // What a request is matched on: the caller's registered app, if any, and the remote end.
  datatype Query = Query(appId: Option<string>, host: Option<string>, ip: Option<string>)

  function ParseMatchType(s: string): MatchType {
    if s == "ip" then Ip else if s == "ip_cidr" then IpCidr else Hostname
  }

  predicate EndsWith(s: string, suffix: string) {
    |suffix| <= |s| && s[|s| - |suffix|..] == suffix
  }

  // Strips the suffix as often as it occurs at the end.
  function TrimEndMatches(s: string, suffix: string): string
    requires suffix != ""
    decreases |s|
  {
    if EndsWith(s, suffix) then TrimEndMatches(s[..|s| - |suffix|], suffix) else s
  }

  // The route's network pattern, taken as a text prefix.
  predicate CidrMatches(pattern: string, ip: string) {
    TrimEndMatches(pattern, ".0/24") <= ip
  }

  predicate AppMatches(r: RouteRow, q: Query) {
    r.appId.None? || r.appId == q.appId
  }

  predicate HostMatches(r: RouteRow, q: Query) {
    r.pattern.None? ||
    match ParseMatchType(r.matchType)
    case Hostname => q.host == r.pattern
    case Ip => q.ip == r.pattern
    case IpCidr => q.ip.Some? && CidrMatches(r.pattern.value, q.ip.value)
  }

  predicate Eligible(q: Query, r: RouteRow) {
    && (r.requireBoth ==> AppMatches(r, q) && HostMatches(r, q))
    && (AppMatches(r, q) || HostMatches(r, q))
  }

  function Specificity(q: Query, r: RouteRow): int {
    if AppMatches(r, q) && r.appId.Some? && HostMatches(r, q) && r.pattern.Some? then 2 else 1
  }

  // ORDER BY priority DESC, created_at ASC
  predicate ListedBefore(a: RouteRow, b: RouteRow) {
    a.priority > b.priority || (a.priority == b.priority && a.createdAt <= b.createdAt)
  }

  function ListRoutes(routes: seq<RouteRow>): seq<RouteRow> {
    StableSort(ListedBefore, routes)
  }

  // The strict improvement test of the resolver's loop.
  predicate Beats(q: Query, a: RouteRow, b: RouteRow) {
    a.priority > b.priority
    || (a.priority == b.priority && Specificity(q, a) > Specificity(q, b))
  }

  // ---- the specification: priority, then specificity, then age ---------------

  predicate RankedBefore(q: Query, a: RouteRow, b: RouteRow) {
    a.priority > b.priority
    || (a.priority == b.priority &&
        (Specificity(q, a) > Specificity(q, b)
         || (Specificity(q, a) == Specificity(q, b) && a.createdAt <= b.createdAt)))
  }

  function Ranking(q: Query): (RouteRow, RouteRow) -> bool { (a, b) => RankedBefore(q, a, b) }

  function Eligibles(q: Query): RouteRow -> bool { r => Eligible(q, r) }

  function Head<T>(s: seq<T>): Option<T> { if s == [] then None else Some(s[0]) }

  // The best eligible route: the head of the eligible routes in rank order.
  function Winner(q: Query, routes: seq<RouteRow>): Option<RouteRow> {
    Head(StableSort(Ranking(q), Filter(Eligibles(q), routes)))
  }

  function CertOf(r: Option<RouteRow>): Option<string> {
    if r.None? then None else Some(r.value.certId)
  }

  // ---- the fast form: one pass over the listed routes ------------------------

  // The first eligible route that none after it beats.
  function FirstUnbeaten(q: Query, s: seq<RouteRow>): (b: Option<RouteRow>)
    ensures b.Some? ==> b.value in s && Eligible(q, b.value)
  {
    if s == [] then None
    else
      var b := FirstUnbeaten(q, s[1..]);
      if Eligible(q, s[0]) && (b.None? || !Beats(q, b.value, s[0])) then Some(s[0]) else b
  }

  // The loop's update: a later route replaces the best only if it beats it.
  function Improve(q: Query, best: Option<RouteRow>, r: RouteRow): Option<RouteRow> {
    if Eligible(q, r) && (best.None? || Beats(q, r, best.value)) then Some(r) else best
  }

  lemma {:induction false} FirstUnbeatenExtends(q: Query, s: seq<RouteRow>, r: RouteRow)
    ensures FirstUnbeaten(q, s + [r]) == Improve(q, FirstUnbeaten(q, s), r)
  {
    if s == [] {
      assert [] + [r] == [r] && [r][1..] == [];
    } else {
      assert (s + [r])[1..] == s[1..] + [r];
      FirstUnbeatenExtends(q, s[1..], r);
    }
  }

  // Rank order with ties to the left.
  function Prefer(q: Query, r: RouteRow, best: Option<RouteRow>): Option<RouteRow> {
    if !Eligible(q, r) then best
    else if best.None? || RankedBefore(q, r, best.value) then Some(r)
    else best
  }

  lemma WinnerOfMore(q: Query, s: seq<RouteRow>)
    requires s != []
    ensures Winner(q, s) == Prefer(q, s[0], Winner(q, s[1..]))
  {
    var rest := StableSort(Ranking(q), Filter(Eligibles(q), s[1..]));
    if Eligible(q, s[0]) {
      assert Filter(Eligibles(q), s) == [s[0]] + Filter(Eligibles(q), s[1..]);
      assert ([s[0]] + Filter(Eligibles(q), s[1..]))[1..] == Filter(Eligibles(q), s[1..]);
      assert StableSort(Ranking(q), Filter(Eligibles(q), s)) == Insert(Ranking(q), s[0], rest);
    }
  }

  // Listing a row before the scan amounts to preferring it in rank order.
  lemma {:induction false} ScanAfterInsert(q: Query, x: RouteRow, s: seq<RouteRow>)
    requires Sorted(ListedBefore, s)
    ensures FirstUnbeaten(q, Insert(ListedBefore, x, s)) == Prefer(q, x, FirstUnbeaten(q, s))
  {
    if s == [] || ListedBefore(x, s[0]) {
      assert ([x] + s)[1..] == s;
      var b := FirstUnbeaten(q, s);
      if b.Some? {
        assert ListedBefore(s[0], b.value);
      }
    } else {
      assert ([s[0]] + Insert(ListedBefore, x, s[1..]))[1..] == Insert(ListedBefore, x, s[1..]);
      ScanAfterInsert(q, x, s[1..]);
    }
  }

  lemma ListedBeforeOrders()
    ensures TotalPreorder(ListedBefore)
  {
  }

  // The one-pass scan of the listed routes finds the head of the ranked eligible routes.
  lemma {:induction false} ScanFindsWinner(q: Query, routes: seq<RouteRow>)
    ensures FirstUnbeaten(q, ListRoutes(routes)) == Winner(q, routes)
  {
    if routes != [] {
      ScanFindsWinner(q, routes[1..]);
      ListedBeforeOrders();
      StableSortCorrect(ListedBefore, routes[1..]);
      ScanAfterInsert(q, routes[0], ListRoutes(routes[1..]));
      WinnerOfMore(q, routes);
    }
  }

  // ---- what the choice depends on --------------------------------------------

  // No eligible route of the table ranks strictly ahead of w.
  ghost predicate Top(q: Query, s: seq<RouteRow>, w: RouteRow) {
    w in s && Eligible(q, w) && forall r :: r in s && Eligible(q, r) ==> RankedBefore(q, w, r)
  }

  lemma {:induction false} WinnerIsTop(q: Query, s: seq<RouteRow>)
    ensures Winner(q, s).None? <==> forall r :: r in s ==> !Eligible(q, r)
    ensures Winner(q, s).Some? ==> Top(q, s, Winner(q, s).value)
  {
    if s != [] {
      assert s == [s[0]] + s[1..];
      WinnerOfMore(q, s);
      WinnerIsTop(q, s[1..]);
    }
  }

  // What is preferred to the winner of a table is preferred to the winner of any part of it.
  lemma PreferredInPart(q: Query, r: RouteRow, part: seq<RouteRow>, s: seq<RouteRow>)
    requires Winner(q, s).Some? && Eligible(q, r) && RankedBefore(q, r, Winner(q, s).value)
    requires forall x :: x in part ==> x in s
    ensures Prefer(q, r, Winner(q, part)) == Some(r)
  {
    WinnerIsTop(q, s);
    WinnerIsTop(q, part);
  }

  // Removing a route that did not win leaves the answer as it was.
  lemma {:induction false} LoserIsIrrelevant(q: Query, a: seq<RouteRow>, x: RouteRow, b: seq<RouteRow>)
    requires Winner(q, a + [x] + b) != Some(x)
    ensures Winner(q, a + b) == Winner(q, a + [x] + b)
  {
    WinnerOfMore(q, a + [x] + b);
    if a == [] {
      assert a + [x] + b == [x] + b && ([x] + b)[1..] == b && a + b == b;
    } else {
      var more, less := a[1..] + [x] + b, a[1..] + b;
      assert (a + [x] + b)[1..] == more && (a + b)[1..] == less;
      WinnerOfMore(q, a + b);
      if Winner(q, more) != Some(x) {
        LoserIsIrrelevant(q, a[1..], x, b);
      } else {
        PreferredInPart(q, a[0], less, more);
      }
    }
  }

  // A new route either wins or changes nothing, and it wins exactly when it outranks the old winner.
  lemma {:induction false} NewRouteWinsOrNothingChanges(q: Query, s: seq<RouteRow>, r: RouteRow)
    ensures Winner(q, s + [r]) ==
      if Eligible(q, r) && (Winner(q, s).None? || !RankedBefore(q, Winner(q, s).value, r)) then Some(r)
      else Winner(q, s)
  {
    WinnerOfMore(q, s + [r]);
    if s == [] {
      assert s + [r] == [r] && [r][1..] == [];
    } else {
      assert (s + [r])[1..] == s[1..] + [r];
      WinnerOfMore(q, s);
      NewRouteWinsOrNothingChanges(q, s[1..], r);
    }
  }

  ghost predicate TopsShareCert(q: Query, s: seq<RouteRow>) {
    forall a, b :: Top(q, s, a) && Top(q, s, b) ==> a.certId == b.certId
  }

  ghost predicate SameAnswer(q: Query, s: seq<RouteRow>, t: seq<RouteRow>) {
    CertOf(Winner(q, s)) == CertOf(Winner(q, t))
  }

  // The answer is independent of row order exactly when the routes tied for first name one certificate.
  lemma OrderIrrelevantIff(q: Query, s: seq<RouteRow>)
    ensures (forall t :: multiset(t) == multiset(s) ==> SameAnswer(q, s, t)) <==> TopsShareCert(q, s)
  {
    WinnerIsTop(q, s);
    if TopsShareCert(q, s) {
      forall t | multiset(t) == multiset(s) ensures SameAnswer(q, s, t) {
        WinnerIsTop(q, t);
        SameRowsSameMembers(s, t);
        if Winner(q, t).Some? {
          assert Top(q, s, Winner(q, t).value);
        }
      }
    } else {
      var a, b :| Top(q, s, a) && Top(q, s, b) && a.certId != b.certId;
      var w := if CertOf(Winner(q, s)) == Some(a.certId) then b else a;
      var t := MoveToFront(s, w);
      WinnerIsTop(q, t[1..]);
      WinnerOfMore(q, t);
      assert Winner(q, t) == Some(w);
      assert !SameAnswer(q, s, t);
    }
  }

  lemma SameRowsSameMembers(s: seq<RouteRow>, t: seq<RouteRow>)
    requires multiset(s) == multiset(t)
    ensures forall r :: r in s <==> r in t
  {
    forall r ensures r in s <==> r in t {
      assert r in s <==> r in multiset(s);
      assert r in t <==> r in multiset(t);
    }
  }

  ghost function MoveToFront(s: seq<RouteRow>, w: RouteRow): (t: seq<RouteRow>)
    requires w in s
    ensures multiset(t) == multiset(s) && t != [] && t[0] == w
    ensures forall r :: r in t ==> r in s
  {
    var i :| 0 <= i < |s| && s[i] == w;
    assert s == s[..i] + [w] + s[i + 1..];
    [w] + s[..i] + s[i + 1..]
  }

  function Age(r: RouteRow): (int, int) { (r.priority, r.createdAt) }

  // In particular when no two routes share both priority and creation time.
  lemma DistinctAgesFixTheAnswer(q: Query, s: seq<RouteRow>, t: seq<RouteRow>)
    requires DistinctBy(Age, s) && multiset(s) == multiset(t)
    ensures Winner(q, s) == Winner(q, t)
  {
    SameRowsSameMembers(s, t);
    WinnerIsTop(q, s);
    WinnerIsTop(q, t);
    if Winner(q, s).Some? {
      var a, b := Winner(q, s).value, Winner(q, t).value;
      var i :| 0 <= i < |s| && s[i] == a;
      var j :| 0 <= j < |s| && s[j] == b;
      assert Age(s[i]) == Age(s[j]);
    }
  }

  // ---- the store-level decision ----------------------------------------------

  // ORDER BY label ASC
  predicate NamedBefore(a: AppRow, b: AppRow) { TextBefore(a.name, b.name) }

  function ListApps(apps: seq<AppRow>): seq<AppRow> { StableSort(NamedBefore, apps) }

  lemma NamedBeforeOrders()
    ensures TotalPreorder(NamedBefore)
  {
    forall a, b ensures NamedBefore(a, b) || NamedBefore(b, a) {
      TextBeforeTotal(a.name, b.name);
    }
    forall a, b, c | NamedBefore(a, b) && NamedBefore(b, c) ensures NamedBefore(a, c) {
      TextBeforeTransitive(a.name, b.name, c.name);
    }
  }

  // The first listed app at the caller's path.
  function AppAt(apps: seq<AppRow>, path: string): Option<string> {
    if apps == [] then None
    else if apps[0].exePath == path then Some(apps[0].id)
    else AppAt(apps[1..], path)
  }

  lemma {:induction false} AppAtFinds(apps: seq<AppRow>, path: string)
    ensures AppAt(apps, path).Some? ==> exists a :: a in apps && a.exePath == path && Some(a.id) == AppAt(apps, path)
    ensures AppAt(apps, path).None? ==> forall a :: a in apps ==> a.exePath != path
  {
    if apps != [] {
      assert apps == [apps[0]] + apps[1..];
      AppAtFinds(apps[1..], path);
      if apps[0].exePath != path && AppAt(apps, path).Some? {
        var a :| a in apps[1..] && a.exePath == path && Some(a.id) == AppAt(apps[1..], path);
        assert a in apps;
      } else if apps[0].exePath == path {
        assert apps[0] in apps;
      }
    }
  }

  // The paths are UNIQUE, so the order in which apps are listed does not matter.
  lemma AppAtAnyOrder(apps: seq<AppRow>, listed: seq<AppRow>, path: string)
    requires DistinctBy(AppExe, apps) && multiset(apps) == multiset(listed)
    ensures AppAt(apps, path) == AppAt(listed, path)
  {
    forall a ensures a in apps <==> a in listed {
      assert a in apps <==> a in multiset(apps);
      assert a in listed <==> a in multiset(listed);
    }
    AppAtFinds(apps, path);
    AppAtFinds(listed, path);
    if AppAt(apps, path).Some? && AppAt(listed, path).Some? {
      var a :| a in apps && a.exePath == path && Some(a.id) == AppAt(apps, path);
      var b :| b in apps && b.exePath == path && Some(b.id) == AppAt(listed, path);
      var i :| 0 <= i < |apps| && apps[i] == a;
      var j :| 0 <= j < |apps| && apps[j] == b;
      assert AppExe(apps[i]) == AppExe(apps[j]);
    }
  }

  lemma ListedAppAt(db: Db, path: string)
    requires DistinctBy(AppExe, db.apps)
    ensures AppAt(ListApps(db.apps), path) == AppAt(db.apps, path)
  {
    NamedBeforeOrders();
    StableSortCorrect(NamedBefore, db.apps);
    AppAtAnyOrder(db.apps, ListApps(db.apps), path);
  }

  function QueryFor(db: Db, exe: Option<string>, host: Option<string>, ip: Option<string>): Query {
    Query(if exe.None? then None else AppAt(ListApps(db.apps), exe.value), host, ip)
  }

  function Resolve(db: Db, exe: Option<string>, host: Option<string>, ip: Option<string>): Option<string> {
    CertOf(Winner(QueryFor(db, exe, host, ip), db.routes))
  }

  // The same rows in another order.
  ghost predicate SameTables(a: Db, b: Db) {
    multiset(a.apps) == multiset(b.apps) && multiset(a.routes) == multiset(b.routes)
  }

  lemma SameAppSameQuery(a: Db, b: Db, exe: Option<string>, host: Option<string>, ip: Option<string>)
    requires DistinctBy(AppExe, a.apps) && SameTables(a, b)
    ensures QueryFor(b, exe, host, ip) == QueryFor(a, exe, host, ip)
  {
    if exe.Some? {
      ListedAppAt(a, exe.value);
      NamedBeforeOrders();
      StableSortCorrect(NamedBefore, b.apps);
      AppAtAnyOrder(a.apps, ListApps(b.apps), exe.value);
    }
  }

  // An answer is independent of the order of both tables exactly when the eligible routes tied for
  // first name one certificate.
  lemma AnswerOrderIff(db: Db, exe: Option<string>, host: Option<string>, ip: Option<string>)
    requires DistinctBy(AppExe, db.apps)
    ensures (forall b :: SameTables(db, b) ==> Resolve(b, exe, host, ip) == Resolve(db, exe, host, ip)) <==>
      TopsShareCert(QueryFor(db, exe, host, ip), db.routes)
  {
    var q := QueryFor(db, exe, host, ip);
    OrderIrrelevantIff(q, db.routes);
    if TopsShareCert(q, db.routes) {
      forall b | SameTables(db, b) ensures Resolve(b, exe, host, ip) == Resolve(db, exe, host, ip) {
        SameAppSameQuery(db, b, exe, host, ip);
        assert SameAnswer(q, db.routes, b.routes);
      }
    } else {
      var t :| multiset(t) == multiset(db.routes) && !SameAnswer(q, db.routes, t);
      var b := db.(routes := t);
      assert SameTables(db, b);
      assert QueryFor(b, exe, host, ip) == q;
    }
  }

  // ---- one lookup per connection, then one without an address -----------------

  // A route that applies without an address applies with every address.
  lemma NoAddressIsHardest(db: Db, exe: Option<string>, host: Option<string>, ip: Option<string>)
    requires Resolve(db, exe, host, None).Some?
    ensures Resolve(db, exe, host, ip).Some?
  {
    var q := QueryFor(db, exe, host, None);
    WinnerIsTop(q, db.routes);
    WinnerIsTop(QueryFor(db, exe, host, ip), db.routes);
    assert Eligible(QueryFor(db, exe, host, ip), Winner(q, db.routes).value);
  }

  // Dropping every route of a certificate that did not win leaves the winner.
  lemma {:induction false} LosingCertIsIrrelevant(q: Query, s: seq<RouteRow>, id: string)
    requires CertOf(Winner(q, s)) != Some(id)
    ensures Winner(q, Filter(RouteToOther(id), s)) == Winner(q, s)
  {
    if s != [] {
      var rest := Filter(RouteToOther(id), s[1..]);
      WinnerOfMore(q, s);
      WinnerIsTop(q, s[1..]);
      WinnerIsTop(q, rest);
      if CertOf(Winner(q, s[1..])) != Some(id) {
        LosingCertIsIrrelevant(q, s[1..], id);
      } else if Winner(q, rest).Some? {
        assert Winner(q, rest).value in s[1..];
      }
      if s[0].certId != id {
        assert Filter(RouteToOther(id), s) == [s[0]] + rest && ([s[0]] + rest)[1..] == rest;
        WinnerOfMore(q, [s[0]] + rest);
      }
    }
  }
}
