/** From a calling PID to a certificate, and from a connecting PID to admission. */
module CallRouting {
  import opened Wrappers
  import opened Seqs
  import opened Schema
  import opened Routing
  import opened Integrity
  import opened ProcessMonitor
  import opened Store
  import P = MonitorProtocol
  import ProcText

  datatype CallError =
    | ProcessGone
    | HashMismatch
    | StoreFailed(error: StoreError)
    | NoRoute
    | WrongUid
    | Unregistered

  datatype ResolvedRoute = ResolvedRoute(certId: string, process: Entry, remoteIp: Option<string>)

  // The first connection some eligible route serves, with that route's certificate.
  function FirstServed(db: Db, exe: string, ips: seq<string>): Option<(string, string)> {
    if ips == [] then None
    else
      var answer := Resolve(db, Some(exe), None, Some(ips[0]));
      if answer.Some? then Some((answer.value, ips[0])) else FirstServed(db, exe, ips[1..])
  }

  // With connections, only they count; a route without an address serves a process that has none.
  function RouteFor(db: Db, process: Entry, ips: seq<string>): Option<ResolvedRoute> {
    if ips == [] then
      var answer := Resolve(db, Some(process.exe), None, None);
      if answer.Some? then Some(ResolvedRoute(answer.value, process, None)) else None
    else
      var served := FirstServed(db, process.exe, ips);
      if served.Some? then Some(ResolvedRoute(served.value.0, process, Some(served.value.1))) else None
  }

  lemma {:induction false} FirstServedNone(db: Db, exe: string, ips: seq<string>)
    ensures FirstServed(db, exe, ips).None? <==> forall ip :: ip in ips ==> Resolve(db, Some(exe), None, Some(ip)).None?
  {
    if ips != [] {
      assert ips == [ips[0]] + ips[1..];
      assert ips[0] in ips;
      FirstServedNone(db, exe, ips[1..]);
    }
  }

  lemma {:induction false} FirstServedSkips(db: Db, exe: string, ips: seq<string>, i: nat)
    requires i <= |ips| && forall j :: 0 <= j < i ==> Resolve(db, Some(exe), None, Some(ips[j])).None?
    ensures FirstServed(db, exe, ips) == FirstServed(db, exe, ips[i..])
  {
    if i > 0 {
      assert ips[1..][i - 1..] == ips[i..];
      FirstServedSkips(db, exe, ips[1..], i - 1);
    }
  }

  // No route is eligible for the binary at this address.
  ghost predicate Unserved(db: Db, exe: string, ip: Option<string>) {
    forall r :: r in db.routes ==> !Eligible(QueryFor(db, Some(exe), None, ip), r)
  }

  lemma UnservedMeansNone(db: Db, exe: string, ip: Option<string>)
    ensures Resolve(db, Some(exe), None, ip).None? <==> Unserved(db, exe, ip)
  {
    WinnerIsTop(QueryFor(db, Some(exe), None, ip), db.routes);
  }

  // No route is found exactly when none is eligible for any connection, nor without an address.
  lemma NoRouteIff(db: Db, process: Entry, ips: seq<string>)
    ensures RouteFor(db, process, ips).None? <==>
      Unserved(db, process.exe, None) && forall ip :: ip in ips ==> Unserved(db, process.exe, Some(ip))
  {
    FirstServedNone(db, process.exe, ips);
    UnservedMeansNone(db, process.exe, None);
    forall ip ensures Resolve(db, Some(process.exe), None, Some(ip)).None? <==> Unserved(db, process.exe, Some(ip)) {
      UnservedMeansNone(db, process.exe, Some(ip));
    }
    if ips != [] && Resolve(db, Some(process.exe), None, None).Some? {
      NoAddressIsHardest(db, Some(process.exe), None, Some(ips[0]));
      assert ips[0] in ips;
    }
  }

  function RemoteIp(c: ProcText.Connection): string { c.ip }

  // The addresses of a process's established connections, IPv4 first.
  function RemoteIps(tcp: Option<string>, tcp6: Option<string>): seq<string> {
    Map(RemoteIp, ProcText.Connections(tcp, false) + ProcText.Connections(tcp6, true))
  }

  // The i-th connection's address is the first with an answer, and that answer names the certificate.
  ghost predicate ServedFirst(db: Db, exe: string, connections: seq<ProcText.Connection>, i: nat, certId: string)
    requires i < |connections|
  {
    && Resolve(db, Some(exe), None, Some(connections[i].ip)) == Some(certId)
    && forall j :: 0 <= j < i ==> Resolve(db, Some(exe), None, Some(connections[j].ip)) == None
  }

  // With connections, the first that is served decides, and its address is reported; without, the answer
  // for no address.
  ghost predicate IsRouteFor(
    db: Db, process: Entry, connections: seq<ProcText.Connection>, r: Result<ResolvedRoute, CallError>)
  {
    match r
    case Err(e) =>
      && e == NoRoute
      && (if connections == [] then Resolve(db, Some(process.exe), None, None) == None
          else forall c :: c in connections ==> Resolve(db, Some(process.exe), None, Some(c.ip)) == None)
    case Ok(route) =>
      && route.process == process
      && (if connections == [] then
            Resolve(db, Some(process.exe), None, None) == Some(route.certId) && route.remoteIp == None
          else
            exists i :: 0 <= i < |connections| &&
              ServedFirst(db, process.exe, connections, i, route.certId) && route.remoteIp == Some(connections[i].ip))
  }

  // That settles the answer.
  lemma OneRouteFor(
    db: Db, process: Entry, connections: seq<ProcText.Connection>,
    r: Result<ResolvedRoute, CallError>, other: Result<ResolvedRoute, CallError>)
    requires IsRouteFor(db, process, connections, r) && IsRouteFor(db, process, connections, other)
    ensures r == other
  {
    if r.Ok? && other.Ok? && connections != [] {
      var i :| 0 <= i < |connections| && ServedFirst(db, process.exe, connections, i, r.value.certId)
        && r.value.remoteIp == Some(connections[i].ip);
      var j :| 0 <= j < |connections| && ServedFirst(db, process.exe, connections, j, other.value.certId)
        && other.value.remoteIp == Some(connections[j].ip);
      assert i == j;
    }
  }

  // Tries each connection in turn, then no address at all; that last try never succeeds where a
  // connection failed.
  method FindRoute(store: Store, process: Entry, connections: seq<ProcText.Connection>)
    returns (r: Result<ResolvedRoute, CallError>)
    ensures store.session.None? ==> r == Err(StoreFailed(Locked))
    ensures store.session.Some? ==>
      var route := RouteFor(store.db, process, Map(RemoteIp, connections));
      r == if route.Some? then Ok(route.value) else Err(NoRoute)
    ensures store.session.Some? ==> IsRouteFor(store.db, process, connections, r)
  {
    ghost var ips := Map(RemoteIp, connections);
    for i := 0 to |connections|
      invariant i > 0 ==> store.session.Some?
      invariant forall j :: 0 <= j < i ==> Resolve(store.db, Some(process.exe), None, Some(ips[j])).None?
    {
      var answer := store.ResolveRoute(Some(process.exe), None, Some(connections[i].ip));
      match answer {
        case Err(e) =>
          return Err(StoreFailed(e));
        case Ok(found) =>
          if found.Some? {
            FirstServedSkips(store.db, process.exe, ips, i);
            assert ServedFirst(store.db, process.exe, connections, i, found.value);
            return Ok(ResolvedRoute(found.value, process, Some(connections[i].ip)));
          }
      }
    }
    FirstServedSkips(store.db, process.exe, ips, |ips|);
    var answer := store.ResolveRoute(Some(process.exe), None, None);
    match answer {
      case Err(e) =>
        r := Err(StoreFailed(e));
      case Ok(found) =>
        if found.Some? {
          if connections != [] {
            NoAddressIsHardest(store.db, Some(process.exe), None, Some(ips[0]));
          }
          r := Ok(ResolvedRoute(found.value, process, None));
        } else {
          r := Err(NoRoute);
        }
    }
  }

  // The binary of a program of the store's own must still have its recorded hash.
  method ResolveForPid(
    store: Store, monitor: Monitor, w: World, pid: nat, known: map<string, string>,
    tcp: Option<string>, tcp6: Option<string>)
    returns (r: Result<ResolvedRoute, CallError>)
    modifies monitor`cache
    ensures var p := Lookup(old(monitor.cache), w, pid);
      && monitor.cache == (if p.Some? then old(monitor.cache)[pid := p.value] else old(monitor.cache))
      && (p.None? ==> r == Err(ProcessGone))
      && (p.Some? ==>
            var tampered := p.value.exe in known && known[p.value.exe] != p.value.hash;
            var connections := ProcText.Connections(tcp, false) + ProcText.Connections(tcp6, true);
            var route := RouteFor(store.db, p.value, RemoteIps(tcp, tcp6));
            && (tampered ==> r == Err(HashMismatch))
            && (!tampered && store.session.None? ==> r == Err(StoreFailed(Locked)))
            && (!tampered && store.session.Some? ==> IsRouteFor(store.db, p.value, connections, r))
            && (!tampered && store.session.Some? ==> r == if route.Some? then Ok(route.value) else Err(NoRoute)))
    ensures WorldOk(w) && old(Faithful(monitor.cache, w)) ==>
      Faithful(monitor.cache, w) && Lookup(old(monitor.cache), w, pid) == FreshRead(w, pid)
  {
    var resolved := monitor.Resolve(w, pid);
    if resolved.None? {
      return Err(ProcessGone);
    }
    var process := resolved.value;
    if process.exe in known && known[process.exe] != process.hash {
      return Err(HashMismatch);
    }
    var connections := ProcText.GetConnections(tcp, tcp6);
    r := FindRoute(store, process, connections);
  }

  // ---- admission of a connecting client ---------------------------------------------------

  predicate Admitted(known: map<string, string>, p: Option<Entry>) {
    p.Some? && p.value.exe in known && known[p.value.exe] == p.value.hash
  }

  // Each refusal has its own condition. Whatever the answer, the cache holds what was resolved, so the
  // same question in the same world gets the same answer.
  method VerifyClient(monitor: Monitor, w: World, pid: nat, uid: nat, ourUid: nat, known: map<string, string>)
    returns (r: Result<Entry, CallError>)
    modifies monitor`cache
    ensures r == Err(WrongUid) <==> uid != ourUid
    ensures uid != ourUid ==> monitor.cache == old(monitor.cache)
    ensures uid == ourUid ==>
      var p := Lookup(old(monitor.cache), w, pid);
      && (r == Err(ProcessGone) <==> p.None?)
      && (r == Err(Unregistered) <==> p.Some? && p.value.exe !in known)
      && (r == Err(HashMismatch) <==> p.Some? && p.value.exe in known && known[p.value.exe] != p.value.hash)
      && (r.Ok? <==> p.Some? && p.value.exe in known && known[p.value.exe] == p.value.hash)
      && (r.Ok? <==> Admitted(known, p))
      && (r.Ok? ==> Some(r.value) == p)
      && monitor.cache == (if p.Some? then old(monitor.cache)[pid := p.value] else old(monitor.cache))
    ensures Lookup(monitor.cache, w, pid) == Lookup(old(monitor.cache), w, pid)
    ensures WorldOk(w) && old(Faithful(monitor.cache, w)) ==>
      Faithful(monitor.cache, w) && Lookup(old(monitor.cache), w, pid) == FreshRead(w, pid)
  {
    if uid != ourUid {
      return Err(WrongUid);
    }
    var resolved := monitor.Resolve(w, pid);
    if resolved.None? {
      return Err(ProcessGone);
    }
    var process := resolved.value;
    if process.exe !in known {
      return Err(Unregistered);
    }
    if known[process.exe] != process.hash {
      return Err(HashMismatch);
    }
    r := Ok(process);
  }

  // Under concurrency: after a passed startup check, a client whose call has returned an entry is
  // admitted exactly when the entry names a recorded binary with the hash of the check; and if the
  // process it is about runs, it has executed that binary, which has had those bytes in its lifetime.
  lemma AdmittedClientIsGenuine(
    rows: seq<IntegrityRow>, startup: Files, s: P.State, ms: seq<P.Move>, call: nat)
    requires AllGenuine(startup, rows) && P.Initial(s)
    requires var t := P.Play(s, ms); call in t.calls && t.calls[call].Returned?
    ensures var t := P.Play(s, ms);
      var e := t.calls[call].entry;
      && (Admitted(KnownHashes(rows), Some(e)) <==>
            Recorded(rows, e.exe) && e.exe in startup && e.hash == startup[e.exe])
      && (Admitted(KnownHashes(rows), Some(e)) && P.IsLive(t, e.pid, e.start) ==>
            e.exe in t.procs[e.pid].exes && (e.exe, startup[e.exe]) in t.procs[e.pid].seen)
  {
    VerifiedHashesAreActual(startup, rows, P.Play(s, ms).calls[call].entry.exe);
    P.AnswersAreGenuine(s, ms, call);
  }

  // Called one at a time, after a passed startup check: a client is admitted exactly when it resolves
  // to a recorded binary with the hash of the check; with a faithful cache, exactly when the bytes of
  // its binary are still those of the check.
  lemma AdmissionIff(rows: seq<IntegrityRow>, startup: Files, cache: Cache, w: World, pid: nat)
    requires AllGenuine(startup, rows)
    ensures var p := Lookup(cache, w, pid);
      Admitted(KnownHashes(rows), p) <==>
        p.Some? && Recorded(rows, p.value.exe) && p.value.exe in startup && p.value.hash == startup[p.value.exe]
    ensures WorldOk(w) && Faithful(cache, w) && FreshRead(w, pid).Some? ==>
      var exe := w.procs[pid].exe;
      (Admitted(KnownHashes(rows), Lookup(cache, w, pid)) <==>
         Recorded(rows, exe) && exe in startup && w.files[exe] == startup[exe])
  {
    if Lookup(cache, w, pid).Some? {
      VerifiedHashesAreActual(startup, rows, Lookup(cache, w, pid).value.exe);
    }
  }

  // A client with a matching cache entry is judged by it, however the files have changed since.
  lemma RewrittenClientJudgedByCache(
    known: map<string, string>, cache: Cache, w: World, pid: nat, files: map<string, string>)
    requires pid in cache && Current(w, pid, cache[pid])
    ensures Admitted(known, Lookup(cache, w.(files := files), pid)) <==>
      cache[pid].exe in known && known[cache[pid].exe] == cache[pid].hash
  {
    assert Lookup(cache, w.(files := files), pid) == Some(cache[pid]);
  }
}
