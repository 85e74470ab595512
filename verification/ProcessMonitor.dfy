/** The daemon's cache of resolved processes, called one request at a time. */
module ProcessMonitor {
  import opened Wrappers

  // A live process: its binary and its start time.
  datatype Proc = Proc(exe: string, start: nat)

  // What /proc and the file system show; `last` is the highest start time seen at each PID.
  datatype World = World(procs: map<nat, Proc>, files: map<string, string>, last: map<nat, nat>)

  datatype Entry = Entry(pid: nat, exe: string, hash: string, start: nat)

  type Cache = map<nat, Entry>

  // Reading everything anew; fails without the process or its binary.
  function FreshRead(w: World, pid: nat): Option<Entry> {
    if pid in w.procs && w.procs[pid].exe in w.files then
      Some(Entry(pid, w.procs[pid].exe, w.files[w.procs[pid].exe], w.procs[pid].start))
    else None
  }

  predicate Current(w: World, pid: nat, e: Entry) { pid in w.procs && w.procs[pid].start == e.start }

  function Swept(cache: Cache, w: World): Cache {
    map pid | pid in cache && Current(w, pid, cache[pid]) :: cache[pid]
  }

  class Monitor {
    var cache: Cache

    constructor ()
      ensures cache == map[]
    {
      cache := map[];
    }

    // In a faithful cache the answer is that of a fresh read, and the cache stays faithful.
    method Resolve(w: World, pid: nat) returns (r: Option<Entry>)
      modifies this`cache
      ensures WorldOk(w) && old(Faithful(cache, w)) ==> r == FreshRead(w, pid) && Faithful(cache, w)
      ensures WorldOk(w) && old(Faithful(cache, w)) ==>
        && (r.Some? <==> pid in w.procs && w.procs[pid].exe in w.files)
        && (r.Some? ==>
              var exe := w.procs[pid].exe;
              r.value.pid == pid && r.value.exe == exe && r.value.hash == w.files[exe]
              && r.value.start == w.procs[pid].start)
      ensures r == Lookup(old(cache), w, pid)
      ensures cache == if r.Some? then old(cache)[pid := r.value] else old(cache)
    {
      if pid !in w.procs {
        return None;
      }
      var start := w.procs[pid].start;
      if pid in cache && cache[pid].start == start {
        assert cache == cache[pid := cache[pid]];
        return Some(cache[pid]);
      }
      var exe := w.procs[pid].exe;
      if exe !in w.files {
        return None;
      }
      var entry := Entry(pid, exe, w.files[exe], start);
      cache := cache[pid := entry];
      r := Some(entry);
    }

    // The answer of a resolve, if its hash is the expected one.
    method VerifyHash(w: World, pid: nat, expected: string) returns (r: Option<Entry>)
      modifies this`cache
      ensures var answer := Lookup(old(cache), w, pid);
        && (r.Some? <==> answer.Some? && answer.value.hash == expected)
        && (r.Some? ==> r == answer)
        && cache == if answer.Some? then old(cache)[pid := answer.value] else old(cache)
      ensures WorldOk(w) && old(Faithful(cache, w)) ==> Faithful(cache, w)
      ensures WorldOk(w) && old(Faithful(cache, w)) ==>
        r == if FreshRead(w, pid).Some? && FreshRead(w, pid).value.hash == expected then FreshRead(w, pid) else None
    {
      r := Resolve(w, pid);
      if r.Some? && r.value.hash != expected {
        r := None;
      }
    }

    method Invalidate(pid: nat)
      modifies this`cache
      ensures cache == old(cache) - {pid}
      ensures forall w :: Lookup(cache, w, pid) == FreshRead(w, pid)
    {
      cache := cache - {pid};
    }

    method CleanupStale(w: World)
      modifies this`cache
      ensures forall pid :: pid in cache <==>
        pid in old(cache) && pid in w.procs && w.procs[pid].start == old(cache)[pid].start
      ensures forall pid :: pid in cache ==> cache[pid] == old(cache)[pid]
      ensures forall pid :: Lookup(cache, w, pid) == Lookup(old(cache), w, pid)
      ensures old(Faithful(cache, w)) ==> Faithful(cache, w)
    {
      cache := Swept(cache, w);
    }
  }

  // ---- what the cache may hold ----------------------------------------------------------

  // The hit or fresh value of one call.
  function Lookup(cache: Cache, w: World, pid: nat): Option<Entry> {
    if pid in w.procs && pid in cache && cache[pid].start == w.procs[pid].start then Some(cache[pid])
    else FreshRead(w, pid)
  }

  // An entry whose start time is the live one is what a fresh read would give.
  predicate Faithful(cache: Cache, w: World) {
    forall pid :: pid in cache ==>
      && pid in w.last && cache[pid].start <= w.last[pid]
      && (Current(w, pid, cache[pid]) ==> FreshRead(w, pid) == Some(cache[pid]))
  }

  predicate WorldOk(w: World) {
    forall pid :: pid in w.procs ==> pid in w.last && w.procs[pid].start <= w.last[pid]
  }

  // ---- whole runs -----------------------------------------------------------------------

  // Processes come and go with increasing start times per PID; binaries and their bytes stay.
  datatype Event =
    | Spawn(pid: nat, proc: Proc)
    | Exit(pid: nat)
    | Call(pid: nat)
    | Forget(pid: nat)
    | Sweep

  function Happens(w: World, e: Event): World {
    match e
    case Spawn(pid, proc) =>
      if pid in w.procs || (pid in w.last && proc.start <= w.last[pid]) then w
      else w.(procs := w.procs[pid := proc], last := w.last[pid := proc.start])
    case Exit(pid) => w.(procs := w.procs - {pid})
    case _ => w
  }

  function Recache(cache: Cache, w: World, e: Event): Cache {
    match e
    case Call(pid) => if Lookup(cache, w, pid).Some? then cache[pid := Lookup(cache, w, pid).value] else cache
    case Forget(pid) => cache - {pid}
    case Sweep => Swept(cache, w)
    case _ => cache
  }

  // The answers of a run, through the cache and without one.
  function Cached(cache: Cache, w: World, es: seq<Event>): seq<Option<Entry>>
    decreases es
  {
    if es == [] then []
    else
      var answer := if es[0].Call? then [Lookup(cache, w, es[0].pid)] else [];
      answer + Cached(Recache(cache, w, es[0]), Happens(w, es[0]), es[1..])
  }

  function Uncached(w: World, es: seq<Event>): seq<Option<Entry>>
    decreases es
  {
    if es == [] then []
    else
      var answer := if es[0].Call? then [FreshRead(w, es[0].pid)] else [];
      answer + Uncached(Happens(w, es[0]), es[1..])
  }

  lemma EventKeepsFaithful(cache: Cache, w: World, e: Event)
    requires Faithful(cache, w) && WorldOk(w)
    ensures Faithful(Recache(cache, w, e), Happens(w, e)) && WorldOk(Happens(w, e))
  {
  }

  // The cache is invisible: every run gives the answers of uncached reads.
  lemma {:induction false} CacheIsInvisible(cache: Cache, w: World, es: seq<Event>)
    requires Faithful(cache, w) && WorldOk(w)
    ensures Cached(cache, w, es) == Uncached(w, es)
    decreases es
  {
    if es != [] {
      EventKeepsFaithful(cache, w, es[0]);
      CacheIsInvisible(Recache(cache, w, es[0]), Happens(w, es[0]), es[1..]);
    }
  }

  // Invalidation and cleanup, inserted anywhere, change no answer.
  lemma MaintenanceIsInvisible(cache: Cache, w: World, before: seq<Event>, e: Event, rest: seq<Event>)
    requires Faithful(cache, w) && WorldOk(w) && (e.Forget? || e.Sweep?)
    ensures Cached(cache, w, before + [e] + rest) == Cached(cache, w, before + rest)
  {
    CacheIsInvisible(cache, w, before + [e] + rest);
    CacheIsInvisible(cache, w, before + rest);
    SkipQuiet(w, before, e, rest);
  }

  lemma {:induction false} SkipQuiet(w: World, before: seq<Event>, e: Event, rest: seq<Event>)
    requires e.Forget? || e.Sweep?
    ensures Uncached(w, before + [e] + rest) == Uncached(w, before + rest)
    decreases before
  {
    if before == [] {
      assert before + [e] + rest == [e] + rest && ([e] + rest)[1..] == rest && before + rest == rest;
    } else {
      assert (before + [e] + rest)[1..] == before[1..] + [e] + rest;
      assert (before + rest)[1..] == before[1..] + rest;
      SkipQuiet(Happens(w, before[0]), before[1..], e, rest);
    }
  }
}
