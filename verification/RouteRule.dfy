/** What a routing answer means in terms of the rows themselves: which rows may answer a request, and
    which of them does. */
module RouteRule {
  import opened Wrappers
  import opened Seqs
  import opened Sorting
  import opened Schema
  import opened Routing

  // The row asks for no app, or for the one registered at the caller's path.
  predicate AppRule(db: Db, r: RouteRow, exe: Option<string>) {
    r.appId.None? || exists a :: a in db.apps && exe == Some(a.exePath) && r.appId == Some(a.id)
  }

  // A pattern with its ".0/24" endings taken off.
  ghost predicate Trimmed(pattern: string, prefix: string) {
    exists n: nat :: pattern == prefix + Repeat(".0/24", n) && !EndsIn(prefix, ".0/24")
  }

  function Repeat(s: string, n: nat): string { if n == 0 then "" else Repeat(s, n - 1) + s }

  predicate EndsIn(s: string, end: string) { |end| <= |s| && s[|s| - |end|..] == end }

  // The row asks for no remote end, or for this one.
  ghost predicate RemoteRule(r: RouteRow, host: Option<string>, ip: Option<string>) {
    || r.pattern.None?
    || (r.matchType != "ip" && r.matchType != "ip_cidr" && host == r.pattern)
    || (r.matchType == "ip" && ip == r.pattern)
    || (r.matchType == "ip_cidr" && ip.Some? && exists prefix :: Trimmed(r.pattern.value, prefix) && prefix <= ip.value)
  }

  ghost predicate Meets(db: Db, r: RouteRow, exe: Option<string>, host: Option<string>, ip: Option<string>) {
    if r.requireBoth then AppRule(db, r, exe) && RemoteRule(r, host, ip)
    else AppRule(db, r, exe) || RemoteRule(r, host, ip)
  }

  // The row asks for an app and a remote end, and gets both.
  ghost predicate MeetsFully(db: Db, r: RouteRow, exe: Option<string>, host: Option<string>, ip: Option<string>) {
    r.appId.Some? && AppRule(db, r, exe) && r.pattern.Some? && RemoteRule(r, host, ip)
  }

  // Higher priority first, then both restrictions met, then older.
  ghost predicate Precedes(
    db: Db, a: RouteRow, b: RouteRow, exe: Option<string>, host: Option<string>, ip: Option<string>)
  {
    var fullA, fullB := MeetsFully(db, a, exe, host, ip), MeetsFully(db, b, exe, host, ip);
    || a.priority > b.priority
    || (a.priority == b.priority && fullA && !fullB)
    || (a.priority == b.priority && fullA == fullB && a.createdAt < b.createdAt)
  }

  // The i-th row answers: it may, and every other row that may comes after it, or ties and stands later.
  ghost predicate Answers(db: Db, i: nat, exe: Option<string>, host: Option<string>, ip: Option<string>)
    requires i < |db.routes|
  {
    && Meets(db, db.routes[i], exe, host, ip)
    && forall j :: 0 <= j < |db.routes| && j != i && Meets(db, db.routes[j], exe, host, ip) ==>
         || Precedes(db, db.routes[i], db.routes[j], exe, host, ip)
         || (i < j && !Precedes(db, db.routes[j], db.routes[i], exe, host, ip))
  }

  // ---- the resolver's conditions say the same ---------------------------------------------

  lemma OnceMore(front: string, s: string, n: nat)
    ensures front + Repeat(s, n) + s == front + Repeat(s, n + 1)
  {
    assert front + Repeat(s, n) + s == front + (Repeat(s, n) + s);
  }

  lemma {:induction false} TrimIsTrimmed(pattern: string)
    ensures Trimmed(pattern, TrimEndMatches(pattern, ".0/24"))
    decreases |pattern|
  {
    var t := TrimEndMatches(pattern, ".0/24");
    if EndsWith(pattern, ".0/24") {
      var front := pattern[..|pattern| - 5];
      TrimIsTrimmed(front);
      var n: nat :| front == t + Repeat(".0/24", n) && !EndsIn(t, ".0/24");
      assert pattern == front + ".0/24";
      OnceMore(t, ".0/24", n);
    } else {
      assert pattern == pattern + Repeat(".0/24", 0);
    }
  }

  lemma {:induction false} TrimmedIsTrim(pattern: string, prefix: string, n: nat)
    requires pattern == prefix + Repeat(".0/24", n) && !EndsIn(prefix, ".0/24")
    ensures prefix == TrimEndMatches(pattern, ".0/24")
  {
    if n == 0 {
      assert pattern == prefix;
    } else {
      var front := prefix + Repeat(".0/24", n - 1);
      assert pattern == front + ".0/24";
      assert pattern[|pattern| - 5..] == ".0/24" && pattern[..|pattern| - 5] == front;
      TrimmedIsTrim(front, prefix, n - 1);
    }
  }

  lemma RemoteRuleIff(r: RouteRow, q: Query)
    ensures HostMatches(r, q) <==> RemoteRule(r, q.host, q.ip)
  {
    if r.pattern.Some? {
      TrimIsTrimmed(r.pattern.value);
      forall prefix | Trimmed(r.pattern.value, prefix) ensures prefix == TrimEndMatches(r.pattern.value, ".0/24") {
        var n: nat :| r.pattern.value == prefix + Repeat(".0/24", n) && !EndsIn(prefix, ".0/24");
        TrimmedIsTrim(r.pattern.value, prefix, n);
      }
    }
  }

  lemma AppRuleIff(db: Db, r: RouteRow, exe: Option<string>, host: Option<string>, ip: Option<string>)
    requires DistinctBy(AppExe, db.apps)
    ensures AppMatches(r, QueryFor(db, exe, host, ip)) <==> AppRule(db, r, exe)
  {
    if exe.Some? {
      ListedAppAt(db, exe.value);
      AppAtFinds(db.apps, exe.value);
      forall a, b | a in db.apps && b in db.apps && a.exePath == b.exePath ensures a == b {
        var i :| 0 <= i < |db.apps| && db.apps[i] == a;
        var j :| 0 <= j < |db.apps| && db.apps[j] == b;
        assert AppExe(db.apps[i]) == AppExe(db.apps[j]);
      }
    }
  }

  lemma MeetsIff(db: Db, r: RouteRow, exe: Option<string>, host: Option<string>, ip: Option<string>)
    requires DistinctBy(AppExe, db.apps)
    ensures var q := QueryFor(db, exe, host, ip);
      && (Eligible(q, r) <==> Meets(db, r, exe, host, ip))
      && (Specificity(q, r) == 2 <==> MeetsFully(db, r, exe, host, ip))
      && (Specificity(q, r) == 1 || Specificity(q, r) == 2)
  {
    AppRuleIff(db, r, exe, host, ip);
    RemoteRuleIff(r, QueryFor(db, exe, host, ip));
  }

  lemma PrecedesIff(db: Db, a: RouteRow, b: RouteRow, exe: Option<string>, host: Option<string>, ip: Option<string>)
    requires DistinctBy(AppExe, db.apps)
    ensures RankedBefore(QueryFor(db, exe, host, ip), a, b) <==> !Precedes(db, b, a, exe, host, ip)
  {
    MeetsIff(db, a, exe, host, ip);
    MeetsIff(db, b, exe, host, ip);
  }

  // The winner is the first row in table order of those that nothing outranks.
  lemma {:induction false} WinnerAt(q: Query, s: seq<RouteRow>) returns (i: nat)
    requires Winner(q, s).Some?
    ensures i < |s| && Winner(q, s) == Some(s[i]) && Eligible(q, s[i])
    ensures forall j :: 0 <= j < |s| && Eligible(q, s[j]) ==> RankedBefore(q, s[i], s[j])
    ensures forall j :: 0 <= j < i && Eligible(q, s[j]) ==> !RankedBefore(q, s[j], s[i])
  {
    WinnerOfMore(q, s);
    WinnerIsTop(q, s);
    assert forall j :: 0 <= j < |s| ==> s[j] in s;
    if Eligible(q, s[0]) && (Winner(q, s[1..]).None? || RankedBefore(q, s[0], Winner(q, s[1..]).value)) {
      i := 0;
    } else {
      i := WinnerAt(q, s[1..]);
      assert forall j :: 0 < j < |s| ==> s[1..][j - 1] == s[j];
      i := i + 1;
    }
  }

  lemma WinnerAnswers(db: Db, i: nat, exe: Option<string>, host: Option<string>, ip: Option<string>)
    requires DistinctBy(AppExe, db.apps) && i < |db.routes|
    requires var q, s := QueryFor(db, exe, host, ip), db.routes;
      && Eligible(q, s[i])
      && (forall j :: 0 <= j < |s| && Eligible(q, s[j]) ==> RankedBefore(q, s[i], s[j]))
      && (forall j :: 0 <= j < i && Eligible(q, s[j]) ==> !RankedBefore(q, s[j], s[i]))
    ensures Answers(db, i, exe, host, ip)
  {
    MeetsIff(db, db.routes[i], exe, host, ip);
    forall j | 0 <= j < |db.routes| && j != i && Meets(db, db.routes[j], exe, host, ip)
      ensures Precedes(db, db.routes[i], db.routes[j], exe, host, ip)
        || (i < j && !Precedes(db, db.routes[j], db.routes[i], exe, host, ip))
    {
      MeetsIff(db, db.routes[j], exe, host, ip);
      PrecedesIff(db, db.routes[i], db.routes[j], exe, host, ip);
      PrecedesIff(db, db.routes[j], db.routes[i], exe, host, ip);
    }
  }

  lemma OneRowAnswers(db: Db, i: nat, j: nat, exe: Option<string>, host: Option<string>, ip: Option<string>)
    requires i < |db.routes| && j < |db.routes| && Answers(db, i, exe, host, ip) && Answers(db, j, exe, host, ip)
    ensures i == j
  {
  }

  // An answer names the certificate of the one row that answers; there is none exactly if no row may.
  lemma ResolveMeans(db: Db, exe: Option<string>, host: Option<string>, ip: Option<string>)
    requires DistinctBy(AppExe, db.apps)
    ensures var answer := Resolve(db, exe, host, ip);
      && (answer.None? <==> forall r :: r in db.routes ==> !Meets(db, r, exe, host, ip))
      && (answer.Some? ==>
            exists i :: 0 <= i < |db.routes| && Answers(db, i, exe, host, ip) && db.routes[i].certId == answer.value)
      && (forall i :: 0 <= i < |db.routes| && Answers(db, i, exe, host, ip) ==> answer == Some(db.routes[i].certId))
  {
    var q := QueryFor(db, exe, host, ip);
    WinnerIsTop(q, db.routes);
    forall r | r in db.routes ensures Eligible(q, r) <==> Meets(db, r, exe, host, ip) {
      MeetsIff(db, r, exe, host, ip);
    }
    if Winner(q, db.routes).Some? {
      var i := WinnerAt(q, db.routes);
      WinnerAnswers(db, i, exe, host, ip);
      forall j | 0 <= j < |db.routes| && Answers(db, j, exe, host, ip) ensures j == i {
        OneRowAnswers(db, i, j, exe, host, ip);
      }
    }
  }

  // The rule on a table of one row, column by column.
  lemma LoneRoute(db: Db, r: RouteRow, exe: Option<string>, host: Option<string>, ip: Option<string>)
    requires DistinctBy(AppExe, db.apps) && db.routes == [r]
    ensures var app := r.appId == None || exists a :: a in db.apps && r.appId == Some(a.id) && exe == Some(a.exePath);
      var remote :=
        if r.pattern.None? then true
        else if r.matchType == "ip" then ip == Some(r.pattern.value)
        else if r.matchType == "ip_cidr" then
          ip.Some? && exists prefix :: Trimmed(r.pattern.value, prefix) && prefix <= ip.value
        else host == Some(r.pattern.value);
      Resolve(db, exe, host, ip) ==
        if (app && remote) || (!r.requireBoth && (app || remote)) then Some(r.certId) else None
  {
    assert r in db.routes;
    ResolveMeans(db, exe, host, ip);
  }
}
