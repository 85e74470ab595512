/** The process cache under concurrency: several resolvers, maintenance and the operating system
    take atomic steps in any order. Between the two reads of one call the PID may change hands. */
module MonitorProtocol {
  import opened ProcessMonitor

  // A running process, with every binary it has executed, and every (path, hash) any file has had,
  // since it started.
  datatype Running = Running(start: nat, exe: string, exes: set<string>, seen: set<(string, string)>)

  // One call of resolve, by how far it has got.
  datatype Phase =
    | Started(pid: nat, start: nat)                             // has read the start time
    | Missed(pid: nat, start: nat)                              // has found no matching entry
    | Located(pid: nat, start: nat, exe: string)                // has read the binary's path
    | Hashed(pid: nat, start: nat, exe: string, hash: string)   // has hashed the file there
    | Returned(entry: Entry)

  // `last` is the highest start time given out at a PID.
  datatype State = State(
    procs: map<nat, Running>, last: map<nat, nat>, files: map<string, string>,
    cache: Cache, calls: map<nat, Phase>)

  datatype Move =
    // the operating system
    | Spawn(pid: nat, start: nat, exe: string)
    | Exit(pid: nat)
    | Exec(pid: nat, exe: string)
    | Write(path: string, hash: string)
    | Unlink(path: string)
    // one call of resolve
    | ReadStart(call: nat, pid: nat)
    | LookUp(call: nat)
    | ReadExe(call: nat)
    | HashFile(call: nat)
    | Insert(call: nat)
    // maintenance; a cleanup is one Sweep per entry
    | Invalidate(pid: nat)
    | Sweep(pid: nat)

  function Stop(s: State, call: nat): State { s.(calls := s.calls - {call}) }

  // A move that is not enabled changes nothing.
  function Do(s: State, m: Move): State {
    match m
    case Spawn(pid, start, exe) =>
      if pid in s.procs || (pid in s.last && start <= s.last[pid]) then s
      else s.(procs := s.procs[pid := Running(start, exe, {exe}, s.files.Items)], last := s.last[pid := start])
    case Exit(pid) => s.(procs := s.procs - {pid})
    case Exec(pid, exe) =>
      if pid !in s.procs then s
      else s.(procs := s.procs[pid := s.procs[pid].(exe := exe, exes := s.procs[pid].exes + {exe})])
    case Write(path, hash) =>
      s.(files := s.files[path := hash],
         procs := map pid | pid in s.procs :: s.procs[pid].(seen := s.procs[pid].seen + {(path, hash)}))
    case Unlink(path) => s.(files := s.files - {path})
    case ReadStart(call, pid) =>
      if call in s.calls || pid !in s.procs then s
      else s.(calls := s.calls[call := Started(pid, s.procs[pid].start)])
    case LookUp(call) =>
      if call !in s.calls || !s.calls[call].Started? then s
      else
        var pid, start := s.calls[call].pid, s.calls[call].start;
        if pid in s.cache && s.cache[pid].start == start then s.(calls := s.calls[call := Returned(s.cache[pid])])
        else s.(calls := s.calls[call := Missed(pid, start)])
    case ReadExe(call) =>
      if call !in s.calls || !s.calls[call].Missed? then s
      else
        var pid, start := s.calls[call].pid, s.calls[call].start;
        if pid !in s.procs then Stop(s, call)
        else s.(calls := s.calls[call := Located(pid, start, s.procs[pid].exe)])
    case HashFile(call) =>
      if call !in s.calls || !s.calls[call].Located? then s
      else
        var c := s.calls[call];
        if c.exe !in s.files then Stop(s, call)
        else s.(calls := s.calls[call := Hashed(c.pid, c.start, c.exe, s.files[c.exe])])
    case Insert(call) =>
      if call !in s.calls || !s.calls[call].Hashed? then s
      else
        var c := s.calls[call];
        var e := Entry(c.pid, c.exe, c.hash, c.start);
        s.(cache := s.cache[c.pid := e], calls := s.calls[call := Returned(e)])
    case Invalidate(pid) => s.(cache := s.cache - {pid})
    case Sweep(pid) =>
      if pid in s.cache && !(pid in s.procs && s.procs[pid].start == s.cache[pid].start) then
        s.(cache := s.cache - {pid})
      else s
  }

  function Play(s: State, ms: seq<Move>): State {
    if ms == [] then s else Do(Play(s, ms[..|ms| - 1]), ms[|ms| - 1])
  }

  predicate StartKnown(s: State, pid: nat, start: nat) { pid in s.last && start <= s.last[pid] }

  // What a process is running, and what the files hold now, counts among what it has seen.
  predicate ProcOk(s: State, pid: nat, p: Running) {
    StartKnown(s, pid, p.start) && p.exe in p.exes && forall path :: path in s.files ==> (path, s.files[path]) in p.seen
  }

  predicate Initial(s: State) {
    s.cache == map[] && s.calls == map[] && forall pid :: pid in s.procs ==> ProcOk(s, pid, s.procs[pid])
  }

  // ---- the invariant ------------------------------------------------------------------------

  predicate IsLive(s: State, pid: nat, start: nat) { pid in s.procs && s.procs[pid].start == start }

  // If the process with this start time still runs, the binary is one it has executed.
  predicate ExeOk(s: State, pid: nat, start: nat, exe: string) { IsLive(s, pid, start) ==> exe in s.procs[pid].exes }

  // And the hash is one the file has had in its lifetime.
  predicate EntryOk(s: State, e: Entry) {
    && StartKnown(s, e.pid, e.start) && ExeOk(s, e.pid, e.start, e.exe)
    && (IsLive(s, e.pid, e.start) ==> (e.exe, e.hash) in s.procs[e.pid].seen)
  }

  predicate PhaseOk(s: State, c: Phase) {
    match c
    case Started(pid, start) => StartKnown(s, pid, start)
    case Missed(pid, start) => StartKnown(s, pid, start)
    case Located(pid, start, exe) => StartKnown(s, pid, start) && ExeOk(s, pid, start, exe)
    case Hashed(pid, start, exe, hash) => EntryOk(s, Entry(pid, exe, hash, start))
    case Returned(e) => EntryOk(s, e)
  }

  predicate Inv(s: State) {
    && (forall pid :: pid in s.procs ==> ProcOk(s, pid, s.procs[pid]))
    && (forall pid :: pid in s.cache ==> s.cache[pid].pid == pid && EntryOk(s, s.cache[pid]))
    && (forall call :: call in s.calls ==> PhaseOk(s, s.calls[call]))
  }

  predicate IsSystem(m: Move) { m.Spawn? || m.Exit? || m.Exec? || m.Write? || m.Unlink? }

  // What the operating system does leaves every earlier reading consistent.
  lemma SystemKeepsReadings(s: State, m: Move, e: Entry)
    requires Inv(s) && IsSystem(m) && StartKnown(s, e.pid, e.start)
    ensures StartKnown(Do(s, m), e.pid, e.start)
    ensures ExeOk(s, e.pid, e.start, e.exe) ==> ExeOk(Do(s, m), e.pid, e.start, e.exe)
    ensures EntryOk(s, e) ==> EntryOk(Do(s, m), e)
  {
  }

  lemma SystemKeepsPhase(s: State, m: Move, c: Phase)
    requires Inv(s) && IsSystem(m) && PhaseOk(s, c)
    ensures PhaseOk(Do(s, m), c)
  {
    match c
    case Started(pid, start) => SystemKeepsReadings(s, m, Entry(pid, "", "", start));
    case Missed(pid, start) => SystemKeepsReadings(s, m, Entry(pid, "", "", start));
    case Located(pid, start, exe) => SystemKeepsReadings(s, m, Entry(pid, exe, "", start));
    case Hashed(pid, start, exe, hash) => SystemKeepsReadings(s, m, Entry(pid, exe, hash, start));
    case Returned(e) => SystemKeepsReadings(s, m, e);
  }

  lemma SystemKeepsInv(s: State, m: Move)
    requires Inv(s) && IsSystem(m)
    ensures Inv(Do(s, m))
  {
    var t := Do(s, m);
    forall pid | pid in t.cache ensures t.cache[pid].pid == pid && EntryOk(t, t.cache[pid]) {
      SystemKeepsReadings(s, m, s.cache[pid]);
    }
    forall call | call in t.calls ensures PhaseOk(t, t.calls[call]) {
      SystemKeepsPhase(s, m, s.calls[call]);
    }
  }

  // Calls and maintenance only touch the cache and the calls.
  lemma SameSystem(s: State, t: State)
    requires t == s.(cache := t.cache, calls := t.calls)
    ensures forall e :: EntryOk(s, e) <==> EntryOk(t, e)
    ensures forall c :: PhaseOk(s, c) <==> PhaseOk(t, c)
  {
  }

  lemma CallKeepsInv(s: State, m: Move)
    requires Inv(s) && !IsSystem(m)
    ensures Inv(Do(s, m))
  {
    SameSystem(s, Do(s, m));
  }

  lemma MoveKeepsInv(s: State, m: Move)
    requires Inv(s)
    ensures Inv(Do(s, m))
  {
    if IsSystem(m) {
      SystemKeepsInv(s, m);
    } else {
      CallKeepsInv(s, m);
    }
  }

  lemma {:induction false} PlayKeepsInv(s: State, ms: seq<Move>)
    requires Inv(s)
    ensures Inv(Play(s, ms))
  {
    if ms != [] {
      PlayKeepsInv(s, ms[..|ms| - 1]);
      MoveKeepsInv(Play(s, ms[..|ms| - 1]), ms[|ms| - 1]);
    }
  }

  // In every interleaving, a cached entry with the live start time names a binary this very process
  // has executed, with a hash that file has had since the process started.
  lemma CachedEntriesAreGenuine(s: State, ms: seq<Move>, pid: nat)
    requires Initial(s)
    ensures var t := Play(s, ms);
      pid in t.cache && IsLive(t, pid, t.cache[pid].start) ==>
        && t.cache[pid].pid == pid
        && t.cache[pid].exe in t.procs[pid].exes
        && (t.cache[pid].exe, t.cache[pid].hash) in t.procs[pid].seen
  {
    PlayKeepsInv(s, ms);
  }

  // And so is every answer a call has given, as long as the process it was about runs.
  lemma AnswersAreGenuine(s: State, ms: seq<Move>, call: nat)
    requires Initial(s)
    ensures var t := Play(s, ms);
      call in t.calls && t.calls[call].Returned? ==>
        var e := t.calls[call].entry;
        IsLive(t, e.pid, e.start) ==> e.exe in t.procs[e.pid].exes && (e.exe, e.hash) in t.procs[e.pid].seen
  {
    PlayKeepsInv(s, ms);
  }

  // So if the process has kept its binary, and the binary its bytes, since the process started, the
  // entry is exact, even when the PID changed hands between the two reads of the call that made it.
  lemma CachedEntriesAreExact(s: State, ms: seq<Move>, pid: nat)
    requires Initial(s)
    requires var t := Play(s, ms);
      && pid in t.cache && IsLive(t, pid, t.cache[pid].start)
      && t.procs[pid].exes == {t.procs[pid].exe}
      && t.procs[pid].exe in t.files
      && forall h :: (t.procs[pid].exe, h) in t.procs[pid].seen ==> h == t.files[t.procs[pid].exe]
    ensures var t := Play(s, ms);
      t.cache[pid] == Entry(pid, t.procs[pid].exe, t.files[t.procs[pid].exe], t.procs[pid].start)
  {
    CachedEntriesAreGenuine(s, ms, pid);
  }

  // ---- when an exact entry stops being exact ---------------------------------------------------

  // The cache holds an entry for the live process at this PID.
  predicate HitAt(s: State, pid: nat) { pid in s.cache && IsLive(s, pid, s.cache[pid].start) }

  // And it is what reading everything anew would give.
  predicate ExactAt(s: State, pid: nat) {
    && HitAt(s, pid) && s.cache[pid].exe == s.procs[pid].exe
    && s.cache[pid].exe in s.files && s.files[s.cache[pid].exe] == s.cache[pid].hash
  }

  // The process executes another binary, its file is rewritten or removed, or a call that read
  // something else inserts its entry.
  predicate Spoils(s: State, pid: nat, m: Move)
    requires pid in s.cache
  {
    var e := s.cache[pid];
    match m
    case Exec(p, exe) => p == pid && exe != e.exe
    case Write(path, hash) => path == e.exe && hash != e.hash
    case Unlink(path) => path == e.exe
    case Insert(call) =>
      && call in s.calls && s.calls[call].Hashed? && s.calls[call].pid == pid
      && (s.calls[call].exe != e.exe || s.calls[call].hash != e.hash)
    case _ => false
  }

  // One move leaves an exact entry exact, if it leaves a hit at all, exactly when it does not spoil it.
  lemma StaysExactIff(s: State, pid: nat, m: Move)
    requires Inv(s) && ExactAt(s, pid) && HitAt(Do(s, m), pid)
    ensures ExactAt(Do(s, m), pid) <==> !Spoils(s, pid, m)
  {
  }

  // The cache has a hit at the PID all through the run.
  predicate HitThroughout(s: State, ms: seq<Move>, pid: nat) {
    HitAt(Play(s, ms), pid) && (ms != [] ==> HitThroughout(s, ms[..|ms| - 1], pid))
  }

  predicate ExactThroughout(s: State, ms: seq<Move>, pid: nat) {
    ExactAt(Play(s, ms), pid) && (ms != [] ==> ExactThroughout(s, ms[..|ms| - 1], pid))
  }

  predicate UnspoiltThroughout(s: State, ms: seq<Move>, pid: nat)
    requires HitThroughout(s, ms, pid)
  {
    ms != [] ==>
      && UnspoiltThroughout(s, ms[..|ms| - 1], pid)
      && !Spoils(Play(s, ms[..|ms| - 1]), pid, ms[|ms| - 1])
  }

  // Over any run that keeps a hit, an exact entry is exact all the way exactly when no move spoils it.
  lemma {:induction false} ExactThroughoutIff(s: State, ms: seq<Move>, pid: nat)
    requires Inv(s) && ExactAt(s, pid) && HitThroughout(s, ms, pid)
    ensures ExactThroughout(s, ms, pid) <==> UnspoiltThroughout(s, ms, pid)
  {
    if ms != [] {
      var n := |ms| - 1;
      ExactThroughoutIff(s, ms[..n], pid);
      if ExactThroughout(s, ms[..n], pid) {
        PlayKeepsInv(s, ms[..n]);
        StaysExactIff(Play(s, ms[..n]), pid, ms[n]);
      }
    }
  }

  // ---- a call that nothing interrupts ------------------------------------------------------------

  function WorldOf(s: State): World {
    World(map pid | pid in s.procs :: Proc(s.procs[pid].exe, s.procs[pid].start), s.files, s.last)
  }

  function CallSteps(call: nat, pid: nat): seq<Move> {
    [ReadStart(call, pid), LookUp(call), ReadExe(call), HashFile(call), Insert(call)]
  }

  lemma PlayFive(s: State, a: Move, b: Move, c: Move, d: Move, e: Move)
    ensures Play(s, [a, b, c, d, e]) == Do(Do(Do(Do(Do(s, a), b), c), d), e)
  {
    assert [a, b, c, d, e] == [a] + ([b] + [c, d, e]);
    PlayFirst(s, a, [b] + [c, d, e]);
    PlayFirst(Do(s, a), b, [c, d, e]);
    PlayThree(Do(Do(s, a), b), c, d, e);
  }

  lemma ReturnedCallRests(s: State, call: nat)
    requires call in s.calls && s.calls[call].Returned?
    ensures Do(Do(Do(s, ReadExe(call)), HashFile(call)), Insert(call)) == s
  {
  }

  lemma HitEndsCall(s: State, call: nat, pid: nat)
    requires call !in s.calls && pid in s.procs && pid in s.cache && s.cache[pid].start == s.procs[pid].start
    ensures Play(s, CallSteps(call, pid)) == s.(calls := s.calls[call := Returned(s.cache[pid])])
  {
    PlayFive(s, ReadStart(call, pid), LookUp(call), ReadExe(call), HashFile(call), Insert(call));
    var t := Do(s, ReadStart(call, pid));
    assert t.calls[call] == Started(pid, s.procs[pid].start);
    var u := Do(t, LookUp(call));
    assert u == s.(calls := s.calls[call := Returned(s.cache[pid])]);
    ReturnedCallRests(u, call);
  }

  lemma MissLocates(s: State, call: nat, pid: nat)
    requires call !in s.calls && pid in s.procs && !(pid in s.cache && s.cache[pid].start == s.procs[pid].start)
    ensures Do(Do(Do(s, ReadStart(call, pid)), LookUp(call)), ReadExe(call)) ==
      s.(calls := s.calls[call := Located(pid, s.procs[pid].start, s.procs[pid].exe)])
  {
    var t := Do(s, ReadStart(call, pid));
    assert t == s.(calls := s.calls[call := Started(pid, s.procs[pid].start)]);
    var u := Do(t, LookUp(call));
    assert u == s.(calls := s.calls[call := Missed(pid, s.procs[pid].start)]);
  }

  lemma LocatedFails(s: State, call: nat, pid: nat, start: nat, exe: string)
    requires call !in s.calls && exe !in s.files
    ensures var t := s.(calls := s.calls[call := Located(pid, start, exe)]);
      Do(Do(t, HashFile(call)), Insert(call)) == s
  {
    var t := s.(calls := s.calls[call := Located(pid, start, exe)]);
    assert Do(t, HashFile(call)).calls == s.calls;
  }

  lemma LocatedInserts(s: State, call: nat, pid: nat, start: nat, exe: string)
    requires call !in s.calls && exe in s.files
    ensures var t := s.(calls := s.calls[call := Located(pid, start, exe)]);
      var e := Entry(pid, exe, s.files[exe], start);
      Do(Do(t, HashFile(call)), Insert(call)) == s.(cache := s.cache[pid := e], calls := s.calls[call := Returned(e)])
  {
    var t := s.(calls := s.calls[call := Located(pid, start, exe)]);
    var u := Do(t, HashFile(call));
    assert u == s.(calls := s.calls[call := Hashed(pid, start, exe, s.files[exe])]);
    var e := Entry(pid, exe, s.files[exe], start);
    assert u.calls[call := Returned(e)] == s.calls[call := Returned(e)];
  }

  lemma MissEndsCall(s: State, call: nat, pid: nat)
    requires call !in s.calls && pid in s.procs && !(pid in s.cache && s.cache[pid].start == s.procs[pid].start)
    ensures var p := s.procs[pid];
      Play(s, CallSteps(call, pid)) ==
        if p.exe !in s.files then s
        else
          var e := Entry(pid, p.exe, s.files[p.exe], p.start);
          s.(cache := s.cache[pid := e], calls := s.calls[call := Returned(e)])
  {
    var p := s.procs[pid];
    PlayFive(s, ReadStart(call, pid), LookUp(call), ReadExe(call), HashFile(call), Insert(call));
    MissLocates(s, call, pid);
    if p.exe !in s.files {
      LocatedFails(s, call, pid, p.start, p.exe);
    } else {
      LocatedInserts(s, call, pid, p.start, p.exe);
    }
  }

  // The steps of one call, taken without interruption, give the answer and the cache of the sequential
  // monitor, and change nothing else.
  lemma UninterruptedCall(s: State, call: nat, pid: nat)
    requires call !in s.calls
    ensures var t := Play(s, CallSteps(call, pid));
      var answer := Lookup(s.cache, WorldOf(s), pid);
      && t == s.(cache := t.cache, calls := t.calls)
      && t.cache == Recache(s.cache, WorldOf(s), Event.Call(pid))
      && t.calls == if answer.Some? then s.calls[call := Returned(answer.value)] else s.calls
  {
    if pid !in s.procs {
      PlayFive(s, ReadStart(call, pid), LookUp(call), ReadExe(call), HashFile(call), Insert(call));
    } else if pid in s.cache && s.cache[pid].start == s.procs[pid].start {
      HitEndsCall(s, call, pid);
      assert s.cache[pid := s.cache[pid]] == s.cache;
    } else {
      MissEndsCall(s, call, pid);
    }
  }

  // ---- two runs at the limits of that promise ------------------------------------------------

  lemma {:induction false} PlayFirst(s: State, m: Move, ms: seq<Move>)
    ensures Play(s, [m] + ms) == Play(Do(s, m), ms)
  {
    if ms == [] {
      assert [m] + ms == [m] && [m][..0] == [];
    } else {
      var n := |ms| - 1;
      assert ([m] + ms)[..n + 1] == [m] + ms[..n];
      PlayFirst(s, m, ms[..n]);
    }
  }

  // Process 7 runs "old"; a call reads its start time and finds no entry.
  const OLD_ALONE := State(
    map[7 := Running(1, "old", {"old"}, {("old", "h1"), ("new", "h2")})], map[7 := 1],
    map["old" := "h1", "new" := "h2"], map[], map[])
  const FIRST_READ: seq<Move> := [ReadStart(0, 7), LookUp(0)]
  const SECOND_READ: seq<Move> := [ReadExe(0), HashFile(0), Insert(0)]

  lemma AfterFirstRead(ms: seq<Move>)
    ensures Play(OLD_ALONE, FIRST_READ + ms) == Play(OLD_ALONE.(calls := map[0 := Missed(7, 1)]), ms)
  {
    assert FIRST_READ + ms == [ReadStart(0, 7)] + ([LookUp(0)] + ms);
    PlayFirst(OLD_ALONE, ReadStart(0, 7), [LookUp(0)] + ms);
    PlayFirst(Do(OLD_ALONE, ReadStart(0, 7)), LookUp(0), ms);
    assert Do(Do(OLD_ALONE, ReadStart(0, 7)), LookUp(0)).calls == map[0 := Missed(7, 1)];
  }

  lemma PlayThree(s: State, a: Move, b: Move, c: Move)
    ensures Play(s, [a, b, c]) == Do(Do(Do(s, a), b), c)
  {
    assert [a, b, c] == [a] + ([b] + ([c] + []));
    PlayFirst(s, a, [b] + ([c] + []));
    PlayFirst(Do(s, a), b, [c] + []);
    PlayFirst(Do(Do(s, a), b), c, []);
  }

  lemma AfterSecondRead(s: State, exe: string, hash: string)
    requires s.calls == map[0 := Missed(7, 1)] && 7 in s.procs && s.procs[7].exe == exe
    requires exe in s.files && s.files[exe] == hash
    ensures Play(s, SECOND_READ) ==
      s.(cache := s.cache[7 := Entry(7, exe, hash, 1)], calls := map[0 := Returned(Entry(7, exe, hash, 1))])
  {
    PlayThree(s, ReadExe(0), HashFile(0), Insert(0));
    ReadExeAlone(s, exe);
    HashFileAlone(s.(calls := map[0 := Located(7, 1, exe)]), exe);
    InsertAlone(s.(calls := map[0 := Hashed(7, 1, exe, hash)]), exe, hash);
  }

  lemma ReadExeAlone(s: State, exe: string)
    requires s.calls == map[0 := Missed(7, 1)] && 7 in s.procs && s.procs[7].exe == exe
    ensures Do(s, ReadExe(0)) == s.(calls := map[0 := Located(7, 1, exe)])
  {
    assert s.calls[0 := Located(7, 1, exe)] == map[0 := Located(7, 1, exe)];
  }

  lemma HashFileAlone(s: State, exe: string)
    requires s.calls == map[0 := Located(7, 1, exe)] && exe in s.files
    ensures Do(s, HashFile(0)) == s.(calls := map[0 := Hashed(7, 1, exe, s.files[exe])])
  {
    assert s.calls[0 := Hashed(7, 1, exe, s.files[exe])] == map[0 := Hashed(7, 1, exe, s.files[exe])];
  }

  lemma InsertAlone(s: State, exe: string, hash: string)
    requires s.calls == map[0 := Hashed(7, 1, exe, hash)]
    ensures Do(s, Insert(0)) ==
      s.(cache := s.cache[7 := Entry(7, exe, hash, 1)], calls := map[0 := Returned(Entry(7, exe, hash, 1))])
  {
    var e := Entry(7, exe, hash, 1);
    assert s.calls[0 := Returned(e)] == map[0 := Returned(e)];
  }

  // The PID is reused between the reads: the call answers with the new process's binary under the old
  // start time. That entry is cached, but matches no live process.
  lemma ReusedPidMixesReads()
    ensures Initial(OLD_ALONE)
    ensures var t := Play(OLD_ALONE, FIRST_READ + ([Move.Exit(7)] + ([Move.Spawn(7, 2, "new")] + SECOND_READ)));
      && t.calls == map[0 := Returned(Entry(7, "new", "h2", 1))]
      && t.cache == map[7 := Entry(7, "new", "h2", 1)]
      && 7 in t.procs && !IsLive(t, 7, 1)
  {
    var ms := [Move.Spawn(7, 2, "new")] + SECOND_READ;
    AfterFirstRead([Move.Exit(7)] + ms);
    var s := OLD_ALONE.(calls := map[0 := Missed(7, 1)]);
    PlayFirst(s, Move.Exit(7), ms);
    PlayFirst(Do(s, Move.Exit(7)), Move.Spawn(7, 2, "new"), SECOND_READ);
    AfterSecondRead(Do(Do(s, Move.Exit(7)), Move.Spawn(7, 2, "new")), "new", "h2");
  }

  // Without the assumption that a process keeps its binary the cache goes stale: after an exec the start
  // time still matches, and the entry names a binary the process no longer runs.
  lemma ExecMakesEntriesStale()
    ensures Initial(OLD_ALONE)
    ensures var t := Play(OLD_ALONE, FIRST_READ + SECOND_READ + [Exec(7, "new")]);
      && 7 in t.procs && 7 in t.cache && IsLive(t, 7, t.cache[7].start)
      && t.procs[7].exe == "new" && t.cache[7].exe == "old"
  {
    AfterFirstRead(SECOND_READ);
    AfterSecondRead(OLD_ALONE.(calls := map[0 := Missed(7, 1)]), "old", "h1");
    var ms := FIRST_READ + SECOND_READ;
    assert (ms + [Exec(7, "new")])[..|ms|] == ms;
  }
}
