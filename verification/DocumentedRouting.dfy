/** The documented ranking of routes, app and host before app before host, against the one computed,
    which has no middle level. */
module DocumentedRouting {
  import opened Wrappers
  import opened Seqs
  import opened Sorting
  import opened Schema
  import opened Routing

  predicate MatchesApp(q: Query, r: RouteRow) { AppMatches(r, q) && r.appId.Some? }

  predicate MatchesHost(q: Query, r: RouteRow) { HostMatches(r, q) && r.pattern.Some? }

  function DocSpec(q: Query, r: RouteRow): int {
    if MatchesApp(q, r) && MatchesHost(q, r) then 3 else if MatchesApp(q, r) then 2 else 1
  }

  predicate DocRankedBefore(q: Query, a: RouteRow, b: RouteRow) {
    a.priority > b.priority
    || (a.priority == b.priority &&
        (DocSpec(q, a) > DocSpec(q, b) || (DocSpec(q, a) == DocSpec(q, b) && a.createdAt <= b.createdAt)))
  }

  function DocRanking(q: Query): (RouteRow, RouteRow) -> bool { (a, b) => DocRankedBefore(q, a, b) }

  function DocWinner(q: Query, routes: seq<RouteRow>): Option<RouteRow> {
    Head(StableSort(DocRanking(q), Filter(Eligibles(q), routes)))
  }

  function DocPrefer(q: Query, r: RouteRow, best: Option<RouteRow>): Option<RouteRow> {
    if !Eligible(q, r) then best
    else if best.None? || DocRankedBefore(q, r, best.value) then Some(r)
    else best
  }

  lemma DocWinnerOfMore(q: Query, s: seq<RouteRow>)
    requires s != []
    ensures DocWinner(q, s) == DocPrefer(q, s[0], DocWinner(q, s[1..]))
  {
    var rest := StableSort(DocRanking(q), Filter(Eligibles(q), s[1..]));
    if Eligible(q, s[0]) {
      assert Filter(Eligibles(q), s) == [s[0]] + Filter(Eligibles(q), s[1..]);
      assert ([s[0]] + Filter(Eligibles(q), s[1..]))[1..] == Filter(Eligibles(q), s[1..]);
      assert StableSort(DocRanking(q), Filter(Eligibles(q), s)) == Insert(DocRanking(q), s[0], rest);
    }
  }

  ghost predicate DocTop(q: Query, s: seq<RouteRow>, w: RouteRow) {
    w in s && Eligible(q, w) && forall r :: r in s && Eligible(q, r) ==> DocRankedBefore(q, w, r)
  }

  lemma {:induction false} DocWinnerIsTop(q: Query, s: seq<RouteRow>)
    ensures DocWinner(q, s).None? <==> forall r :: r in s ==> !Eligible(q, r)
    ensures DocWinner(q, s).Some? ==> DocTop(q, s, DocWinner(q, s).value)
  {
    if s != [] {
      assert s == [s[0]] + s[1..];
      DocWinnerOfMore(q, s);
      DocWinnerIsTop(q, s[1..]);
    }
  }

  // ---- when the two agree --------------------------------------------------------------

  // The computed winner matches an app, or no eligible route of its priority matches an app alone.
  ghost predicate AppAloneIdle(q: Query, s: seq<RouteRow>, w: RouteRow) {
    DocSpec(q, w) >= 2
    || forall r :: r in s && Eligible(q, r) && r.priority == w.priority ==> DocSpec(q, r) != 2
  }

  // Where the middle level does not come between two routes, the two rankings order them alike.
  lemma SameOrder(q: Query, w: RouteRow, r: RouteRow)
    requires DocSpec(q, w) >= 2 || r.priority != w.priority || DocSpec(q, r) != 2
    ensures RankedBefore(q, w, r) ==> DocRankedBefore(q, w, r)
    ensures !RankedBefore(q, r, w) ==> !DocRankedBefore(q, r, w)
  {
  }

  lemma {:induction false} IdleMeansSame(q: Query, s: seq<RouteRow>)
    requires Winner(q, s).Some? && AppAloneIdle(q, s, Winner(q, s).value)
    ensures DocWinner(q, s) == Winner(q, s)
  {
    var r, rest := s[0], s[1..];
    assert s == [r] + rest;
    WinnerOfMore(q, s);
    DocWinnerOfMore(q, s);
    WinnerIsTop(q, rest);
    DocWinnerIsTop(q, rest);
    if Winner(q, s) == Winner(q, rest) {
      IdleMeansSame(q, rest);
      if Eligible(q, r) && !RankedBefore(q, r, Winner(q, s).value) {
        SameOrder(q, Winner(q, s).value, r);
      } else if Eligible(q, r) {
        DocRankedItself(q, r);
      }
    } else if DocWinner(q, rest).Some? {
      WinnerIsTop(q, s);
      SameOrder(q, r, DocWinner(q, rest).value);
    }
  }

  lemma DocRankedItself(q: Query, r: RouteRow)
    ensures DocRankedBefore(q, r, r)
  {
  }

  // The oldest of the eligible routes of highest priority, ties in table order.
  function FirstListed(q: Query, s: seq<RouteRow>): Option<RouteRow> { Head(Filter(Eligibles(q), ListRoutes(s))) }

  // Among routes that all have the computed level 1 the first one listed wins.
  lemma {:induction false} FirstListedUnbeaten(q: Query, listed: seq<RouteRow>)
    requires Sorted(ListedBefore, listed) && FirstUnbeaten(q, listed).Some?
    requires Specificity(q, FirstUnbeaten(q, listed).value) == 1
    ensures FirstUnbeaten(q, listed) == Head(Filter(Eligibles(q), listed))
  {
    if !Eligible(q, listed[0]) {
      FirstListedUnbeaten(q, listed[1..]);
    } else {
      var b := FirstUnbeaten(q, listed[1..]);
      if b.Some? {
        assert ListedBefore(listed[0], b.value);
      }
    }
  }

  predicate AtTopPriority(q: Query, s: seq<RouteRow>, r: RouteRow) {
    r in s && Eligible(q, r) && forall x :: x in s && Eligible(q, x) ==> x.priority <= r.priority
  }

  // What an administrator can check of the routes a request meets at the highest eligible priority:
  // one matches app and host, or none matches an app, or the oldest matches one.
  ghost predicate LevelsAgree(q: Query, s: seq<RouteRow>) {
    || (exists r :: AtTopPriority(q, s, r) && MatchesApp(q, r) && MatchesHost(q, r))
    || (forall r :: AtTopPriority(q, s, r) ==> !MatchesApp(q, r))
    || (FirstListed(q, s).Some? && MatchesApp(q, FirstListed(q, s).value))
  }

  lemma WinnerLevel(q: Query, s: seq<RouteRow>)
    requires Winner(q, s).Some?
    ensures var w := Winner(q, s).value;
      && AtTopPriority(q, s, w)
      && (DocSpec(q, w) == 3 <==> exists r :: AtTopPriority(q, s, r) && DocSpec(q, r) == 3)
      && (DocSpec(q, w) != 3 ==> FirstListed(q, s) == Some(w))
  {
    var w := Winner(q, s).value;
    WinnerIsTop(q, s);
    if DocSpec(q, w) != 3 {
      ScanFindsWinner(q, s);
      ListedBeforeOrders();
      StableSortCorrect(ListedBefore, s);
      FirstListedUnbeaten(q, ListRoutes(s));
    }
  }

  // The documented winner is the computed one exactly when no route is eligible or the levels agree.
  lemma DocumentedWinnerIff(q: Query, s: seq<RouteRow>)
    ensures DocWinner(q, s) == Winner(q, s) <==> (forall r :: r in s ==> !Eligible(q, r)) || LevelsAgree(q, s)
  {
    WinnerIsTop(q, s);
    DocWinnerIsTop(q, s);
    if Winner(q, s).Some? {
      var w := Winner(q, s).value;
      WinnerLevel(q, s);
      AgreementIsIdleness(q, s);
      if AppAloneIdle(q, s, w) {
        IdleMeansSame(q, s);
      } else {
        assert DocWinner(q, s).value != w;
      }
    }
  }

  lemma AgreementIsIdleness(q: Query, s: seq<RouteRow>)
    requires Winner(q, s).Some?
    ensures LevelsAgree(q, s) <==> AppAloneIdle(q, s, Winner(q, s).value)
  {
    var w := Winner(q, s).value;
    WinnerLevel(q, s);
    forall r | r in s && Eligible(q, r) && r.priority == w.priority ensures AtTopPriority(q, s, r) {
    }
  }

  // An app's own route, and an older one for the host, both of priority 0.
  const FOR_APP := RouteRow("a", "app-cert", Some("app"), "hostname", None, false, 0, 1)
  const FOR_HOST := RouteRow("h", "host-cert", None, "hostname", Some("example.org"), false, 0, 0)
  const APP_TO_HOST := Query(Some("app"), Some("example.org"), None)

  lemma AppRouteLosesToHostRoute()
    ensures Winner(APP_TO_HOST, [FOR_APP, FOR_HOST]) == Some(FOR_HOST)
    ensures DocWinner(APP_TO_HOST, [FOR_APP, FOR_HOST]) == Some(FOR_APP)
  {
    var s := [FOR_APP, FOR_HOST];
    assert s[1..] == [FOR_HOST] && s[1..][1..] == [];
    WinnerOfMore(APP_TO_HOST, s);
    WinnerOfMore(APP_TO_HOST, s[1..]);
    DocWinnerOfMore(APP_TO_HOST, s);
    DocWinnerOfMore(APP_TO_HOST, s[1..]);
  }
}
