/** `IOCache`: an LRU list of file contents with an index by path, which drops its mutex while it
    loads a file. */
module IoCache {
  import opened TaskQueue
  import opened Basics
  import opened Pages

  type Path = string

  datatype Entry = Entry(path: Path, mtime: nat, content: seq<byte>, size: nat)

  /** `entries` lists the addresses of the entries, most recent first; `heap` holds the allocated
      entries; `index` leads from a path to a position in the list, named by the entry there. */
  datatype Cache = Cache(max: nat, entries: seq<nat>, heap: map<nat, Entry>, index: map<Path, nat>)

  /** Every listed entry is allocated and listed once, every allocated entry is listed, and every
      index entry refers to a listed entry that carries its path. */
  ghost predicate Sound(c: Cache) {
    && NoDup(c.entries)
    && (forall a :: a in c.entries <==> a in c.heap)
    && (forall p :: p in c.index ==> c.index[p] in c.heap && c.heap[c.index[p]].path == p)
  }

  /** `add_entry`: an index entry that exists already is not replaced. */
  function AddEntry(c: Cache, a: nat, e: Entry): Cache {
    Cache(c.max, [a] + c.entries, c.heap[a := e], if e.path in c.index then c.index else c.index[e.path := a])
  }

  function MoveEntry(c: Cache, p: Path): Cache
    requires NoDup(c.entries) && p in c.index
  {
    var a := c.index[p];
    Cache(c.max, [a] + Without(c.entries, a), c.heap, (c.index - {p})[p := a])
  }

  /** `drop_entry`: frees the last entry and erases the index entry of its path. */
  function DropEntry(c: Cache): Cache
    requires c.entries != [] && c.entries[|c.entries| - 1] in c.heap
  {
    var a := c.entries[|c.entries| - 1];
    Cache(c.max, c.entries[..|c.entries| - 1], c.heap - {a}, c.index - {c.heap[a].path})
  }

  function RemoveEntry(c: Cache, p: Path): Cache
    requires NoDup(c.entries) && p in c.index
  {
    var a := c.index[p];
    Cache(c.max, Without(c.entries, a), c.heap - {a}, c.index - {p})
  }

  /** What `load_cache` does before it gives the mutex up. */
  function MakeRoom(c: Cache): Cache
    requires Sound(c) && c.max >= 1
  {
    if |c.entries| >= c.max then DropEntry(c) else c
  }

  predicate Fresh(e: Entry, mtime: nat, size: nat) {
    e.mtime >= mtime && e.mtime != 0 && e.size == size
  }

  /** The first critical section of `access_cache`: the bytes on a hit, None when a load follows. */
  function Look(c: Cache, p: Path, mtime: nat, size: nat): (Cache, Option<seq<byte>>)
    requires Sound(c) && c.max >= 1
  {
    if p in c.index then
      var e := c.heap[c.index[p]];
      if Fresh(e, mtime, size) then (MoveEntry(c, p), Some(e.content))
      else
        RemoveSound(c, p);
        (MakeRoom(RemoveEntry(c, p)), None)
    else
      (MakeRoom(c), None)
  }

  lemma AddSound(c: Cache, a: nat, e: Entry)
    requires Sound(c) && a !in c.heap
    ensures Sound(AddEntry(c, a, e))
  {
  }

  lemma RemoveSound(c: Cache, p: Path)
    requires Sound(c) && p in c.index
    ensures Sound(RemoveEntry(c, p))
  {
  }

  lemma MoveSound(c: Cache, p: Path)
    requires Sound(c) && p in c.index
    ensures Sound(MoveEntry(c, p))
    ensures |MoveEntry(c, p).entries| == |c.entries| && MoveEntry(c, p).heap == c.heap && MoveEntry(c, p).index == c.index
  {
    ConsKeepsNoDup(c.index[p], Without(c.entries, c.index[p]));
    assert MoveEntry(c, p).index == c.index;
  }

  lemma DropSound(c: Cache)
    requires Sound(c) && c.entries != []
    ensures c.entries[|c.entries| - 1] in c.heap && Sound(DropEntry(c))
  {
  }

  /** Look keeps the cache sound, and a hit is fresh content of the path that was asked for. */
  lemma LookSound(c: Cache, p: Path, mtime: nat, size: nat)
    requires Sound(c) && c.max >= 1
    ensures var (c', r) := Look(c, p, mtime, size);
      && Sound(c') && c'.max == c.max
      && (r.Some? ==> exists a :: a in c.heap && c.heap[a].path == p && c.heap[a].content == r.value && Fresh(c.heap[a], mtime, size))
      && (r.Some? ==> |c'.entries| == |c.entries|)
      && (r.None? ==> |c'.entries| <= |c.entries| && (|c.entries| >= c.max ==> |c'.entries| < |c.entries|))
  {
    if p in c.index {
      MoveSound(c, p);
      RemoveSound(c, p);
      if |RemoveEntry(c, p).entries| >= c.max {
        DropSound(RemoveEntry(c, p));
      }
    } else if |c.entries| >= c.max {
      DropSound(c);
    }
  }

  /** An indexed path is a hit exactly when the entry is no older than asked for, has a stamp and has the size asked for;
      then nothing changes but that the entry comes to the front. */
  lemma HitExactly(c: Cache, p: Path, mtime: nat, size: nat)
    requires Sound(c) && c.max >= 1 && p in c.index
    ensures var e, (c', r) := c.heap[c.index[p]], Look(c, p, mtime, size);
      && (r == Some(e.content) <==> e.mtime >= mtime && e.mtime != 0 && e.size == size)
      && (r.Some? <==> r == Some(e.content))
      && (r.Some? ==> c'.heap == c.heap && c'.index == c.index && c'.max == c.max && c'.entries != [] && c'.entries[0] == c.index[p])
      && (r.None? ==> p !in c'.index && c.index[p] !in c'.heap)
  {
    MoveSound(c, p);
    RemoveSound(c, p);
  }

  /** A path that is not indexed is not a hit and is not indexed afterwards. */
  lemma MissKeepsOut(c: Cache, p: Path, mtime: nat, size: nat)
    requires Sound(c) && c.max >= 1 && p !in c.index
    ensures var (c', r) := Look(c, p, mtime, size); r.None? && p !in c'.index
  {
  }

  // ------------------------------------------------------------ any number of threads

  datatype Request = Request(path: Path, mtime: nat, size: nat)

  /** `loads` are the threads that have given the mutex up and are reading a file. */
  datatype System = System(cache: Cache, loads: map<nat, Request>)

  datatype Step =
    | Access(t: nat, req: Request)
    | Finish(t: nat, content: Option<seq<byte>>, a: nat)   // `a` is the new entry; None: the load failed

  ghost predicate Enabled(T: nat, s: System, step: Step) {
    && Sound(s.cache) && s.cache.max >= 1 && step.t < T
    && match step
       case Access(t, _) => t !in s.loads
       case Finish(t, content, a) => t in s.loads && a !in s.cache.heap
  }

  ghost function Apply(T: nat, s: System, step: Step): System
    requires Enabled(T, s, step)
  {
    match step
    case Access(t, req) =>
      var (c, r) := Look(s.cache, req.path, req.mtime, req.size);
      System(c, if r.Some? then s.loads else s.loads[t := req])
    case Finish(t, content, a) =>
      var req := s.loads[t];
      System(if content.None? then s.cache else AddEntry(s.cache, a, Entry(req.path, req.mtime, content.value, req.size)),
             s.loads - {t})
  }

  ghost predicate Runs(T: nat, s: System, steps: seq<Step>)
    decreases |steps|
  {
    steps == [] || (Enabled(T, s, steps[0]) && Runs(T, Apply(T, s, steps[0]), steps[1..]))
  }

  ghost function Final(T: nat, s: System, steps: seq<Step>): System
    requires Runs(T, s, steps)
    decreases |steps|
  {
    if steps == [] then s else Final(T, Apply(T, s, steps[0]), steps[1..])
  }

  function Start(max: nat): System {
    System(Cache(max, [], map[], map[]), map[])
  }

  ghost predicate SystemInv(T: nat, max: nat, s: System) {
    && Sound(s.cache) && s.cache.max == max >= 1
    && (forall t :: t in s.loads ==> t < T)
    && |s.cache.entries| + |s.loads| <= max + T - 1
  }

  lemma {:induction false} FewThreads(T: nat, ts: set<nat>)
    requires forall t :: t in ts ==> t < T
    ensures |ts| <= T
  {
    if T == 0 {
      assert ts == {};
    } else {
      FewThreads(T - 1, ts - {T - 1});
    }
  }

  lemma AccessKeepsInv(T: nat, max: nat, s: System, t: nat, req: Request)
    requires SystemInv(T, max, s) && Enabled(T, s, Access(t, req))
    ensures SystemInv(T, max, Apply(T, s, Access(t, req)))
  {
    LookSound(s.cache, req.path, req.mtime, req.size);
    OneMoreLoad(T, s.loads, t, req);
  }

  lemma OneMoreLoad(T: nat, loads: map<nat, Request>, t: nat, req: Request)
    requires t < T && t !in loads && forall u :: u in loads ==> u < T
    ensures |loads[t := req]| == |loads| + 1 <= T
  {
    assert loads[t := req].Keys == loads.Keys + {t};
    FewThreads(T, loads.Keys + {t});
  }

  lemma FinishKeepsInv(T: nat, max: nat, s: System, t: nat, content: Option<seq<byte>>, a: nat)
    requires SystemInv(T, max, s) && Enabled(T, s, Finish(t, content, a))
    ensures SystemInv(T, max, Apply(T, s, Finish(t, content, a)))
  {
  }

  lemma {:induction false} RunKeepsInv(T: nat, max: nat, s: System, steps: seq<Step>)
    requires SystemInv(T, max, s) && Runs(T, s, steps)
    ensures SystemInv(T, max, Final(T, s, steps))
    decreases |steps|
  {
    if steps != [] {
      match steps[0] {
        case Access(t, req) => AccessKeepsInv(T, max, s, t, req);
        case Finish(t, content, a) => FinishKeepsInv(T, max, s, t, content, a);
      }
      RunKeepsInv(T, max, Apply(T, s, steps[0]), steps[1..]);
    }
  }

  /** With any interleaving of T threads, even when several load the same path: the index never refers
      to a freed entry or to one of another path, and entries and loads together stay below max + T. */
  lemma InterleavedSafety(T: nat, max: nat, steps: seq<Step>)
    requires T >= 1 && max >= 1 && Runs(T, Start(max), steps)
    ensures var s := Final(T, Start(max), steps);
      && |s.cache.entries| + |s.loads| <= max + T - 1
      && NoDup(s.cache.entries) && (forall a :: a in s.cache.entries <==> a in s.cache.heap)
      && (forall p :: p in s.cache.index ==> s.cache.index[p] in s.cache.entries && s.cache.heap[s.cache.index[p]].path == p)
  {
    RunKeepsInv(T, max, Start(max), steps);
  }

  // ------------------------------------------------------------ the bound is reached

  lemma {:induction false} RunsConcat(T: nat, s: System, a: seq<Step>, b: seq<Step>)
    requires Runs(T, s, a) && Runs(T, Final(T, s, a), b)
    ensures Runs(T, s, a + b) && Final(T, s, a + b) == Final(T, Final(T, s, a), b)
    decreases |a|
  {
    if a == [] {
      assert a + b == b;
    } else {
      RunsConcat(T, Apply(T, s, a[0]), a[1..], b);
      assert (a + b)[1..] == a[1..] + b;
    }
  }

  function Upto(n: nat): (r: set<nat>)
    ensures forall t: nat :: t in r <==> t < n
  {
    if n == 0 then {} else Upto(n - 1) + {n - 1}
  }

  /** A number above all elements: the address of a new entry. */
  ghost function Above(s: set<nat>): (a: nat)
    ensures forall x :: x in s ==> x < a
  {
    if s == {} then 0
    else
      var x :| x in s;
      var r := Above(s - {x});
      assert forall y :: y in s ==> y == x || y in s - {x};
      if x < r then r else x + 1
  }

  /** `n` threads begin to load the path of `req`, which is not cached. */
  lemma {:induction false} LoadersPileUp(T: nat, s: System, req: Request, n: nat) returns (steps: seq<Step>, s': System)
    requires Sound(s.cache) && |s.cache.entries| < s.cache.max && req.path !in s.cache.index && n <= T && s.loads == map[]
    ensures Runs(T, s, steps) && s' == Final(T, s, steps) && s'.cache == s.cache && s'.loads.Keys == Upto(n)
    ensures forall t :: t in s'.loads ==> s'.loads[t] == req
  {
    if n == 0 {
      steps, s' := [], s;
    } else {
      var before, mid := LoadersPileUp(T, s, req, n - 1);
      var last := [Access(n - 1, req)];
      assert last[1..] == [];
      RunsConcat(T, s, before, last);
      steps, s' := before + last, Final(T, mid, last);
    }
  }

  /** The loading threads below `n` finish, each with an entry of its own. */
  lemma {:induction false} LoadersFinish(T: nat, s: System, req: Request, n: nat, content: seq<byte>)
    returns (steps: seq<Step>, s': System)
    requires Sound(s.cache) && s.cache.max >= 1 && n <= T && s.loads.Keys == Upto(n)
    requires forall t :: t in s.loads ==> s.loads[t] == req
    ensures Runs(T, s, steps) && s' == Final(T, s, steps) && s'.loads == map[] && Sound(s'.cache)
    ensures s'.cache.max == s.cache.max && |s'.cache.entries| == |s.cache.entries| + n
    ensures forall p :: p in s'.cache.index ==> p in s.cache.index || p == req.path
    decreases n
  {
    if n == 0 {
      steps, s' := [], s;
    } else {
      var a := Above(s.cache.heap.Keys);
      var step := Finish(n - 1, Some(content), a);
      AddSound(s.cache, a, Entry(req.path, req.mtime, content, req.size));
      var mid := Apply(T, s, step);
      assert mid.loads.Keys == Upto(n - 1);
      var rest;
      rest, s' := LoadersFinish(T, mid, req, n - 1, content);
      steps := [step] + rest;
      assert steps[1..] == rest;
    }
  }

  function Name(n: nat): Path {
    seq(n, _ => 'a')
  }

  /** `n` different files are loaded one after the other. */
  lemma {:induction false} FillUp(T: nat, max: nat, n: nat) returns (steps: seq<Step>, s': System)
    requires T >= 1 && n <= max && max >= 1
    ensures Runs(T, Start(max), steps) && s' == Final(T, Start(max), steps) && s'.loads == map[]
    ensures Sound(s'.cache) && s'.cache.max == max && |s'.cache.entries| == n
    ensures forall p :: p in s'.cache.index ==> |p| < n
  {
    if n == 0 {
      steps, s' := [], Start(max);
    } else {
      var before, mid := FillUp(T, max, n - 1);
      var load, s1 := LoadOnce(T, mid, Request(Name(n - 1), 1, 0), 1, []);
      RunsConcat(T, Start(max), before, load);
      steps, s' := before + load, s1;
    }
  }

  lemma LoadOnce(T: nat, s: System, req: Request, n: nat, content: seq<byte>) returns (steps: seq<Step>, s': System)
    requires Sound(s.cache) && |s.cache.entries| < s.cache.max && req.path !in s.cache.index && n <= T && s.loads == map[]
    ensures Runs(T, s, steps) && s' == Final(T, s, steps) && s'.loads == map[] && Sound(s'.cache)
    ensures s'.cache.max == s.cache.max && |s'.cache.entries| == |s.cache.entries| + n
    ensures forall p :: p in s'.cache.index ==> p in s.cache.index || p == req.path
  {
    var enter, mid := LoadersPileUp(T, s, req, n);
    var leave;
    leave, s' := LoadersFinish(T, mid, req, n, content);
    RunsConcat(T, s, enter, leave);
    steps := enter + leave;
  }

  /** The bound is exact: T threads that load the same file at the same time leave max + T - 1 entries. */
  lemma BoundIsReached(T: nat, max: nat) returns (steps: seq<Step>)
    requires T >= 1 && max >= 1
    ensures Runs(T, Start(max), steps) && |Final(T, Start(max), steps).cache.entries| == max + T - 1
  {
    var fill, mid := FillUp(T, max, max - 1);
    var load, s' := LoadOnce(T, mid, Request(Name(max), 1, 0), T, []);
    RunsConcat(T, Start(max), fill, load);
    steps := fill + load;
  }

  // ------------------------------------------------------------ one thread: a true LRU cache

  /** `access_cache` without interference; `loaded` is the content of the file if it has to be read. */
  function AccessAlone(c: Cache, p: Path, mtime: nat, size: nat, loaded: Option<seq<byte>>, a: nat): (Cache, Option<seq<byte>>)
    requires Sound(c) && c.max >= 1
  {
    var (c', r) := Look(c, p, mtime, size);
    if r.Some? then (c', r)
    else if loaded.None? then (c', None)
    else (AddEntry(c', a, Entry(p, mtime, loaded.value, size)), loaded)
  }

  /** An unchanged file is read once: after an access that returned something, the same access returns the same bytes,
      whatever reading the file would yield. */
  lemma SecondAccessHits(c: Cache, p: Path, mtime: nat, size: nat, loaded: Option<seq<byte>>, a: nat, loaded': Option<seq<byte>>, a': nat)
    requires Sound(c) && c.max >= 1 && mtime > 0 && a !in c.heap && AccessAlone(c, p, mtime, size, loaded, a).1.Some?
    ensures var (c', r) := AccessAlone(c, p, mtime, size, loaded, a);
      && Sound(c') && c'.max >= 1
      && var (c'', r') := AccessAlone(c', p, mtime, size, loaded', a');
      r' == r && c''.heap == c'.heap && c''.index == c'.index
  {
    LookSound(c, p, mtime, size);
    var (mid, hit) := Look(c, p, mtime, size);
    if p in c.index {
      HitExactly(c, p, mtime, size);
    } else {
      MissKeepsOut(c, p, mtime, size);
    }
    if hit.Some? {
      HitExactly(mid, p, mtime, size);
    } else {
      LookHeap(c, p, mtime, size);
      var e := Entry(p, mtime, loaded.value, size);
      AddSound(mid, a, e);
      HitExactly(AddEntry(mid, a, e), p, mtime, size);
    }
  }

  lemma LookHeap(c: Cache, p: Path, mtime: nat, size: nat)
    requires Sound(c) && c.max >= 1
    ensures Look(c, p, mtime, size).0.heap.Keys <= c.heap.Keys
  {
  }

  /** When entry `a` was last used: `lastUse` records the latest access that returned each path. */
  function Stamp(heap: map<nat, Entry>, lastUse: map<Path, nat>, a: nat): nat {
    if a in heap && heap[a].path in lastUse then lastUse[heap[a].path] else 0
  }

  ghost predicate MostRecentFirst(entries: seq<nat>, heap: map<nat, Entry>, lastUse: map<Path, nat>) {
    forall i, j :: 0 <= i < j < |entries| ==> Stamp(heap, lastUse, entries[i]) > Stamp(heap, lastUse, entries[j])
  }

  /** Every entry is indexed by its path: no path is listed twice. */
  ghost predicate FullyIndexed(c: Cache) {
    forall a :: a in c.heap ==> c.heap[a].path in c.index && c.index[c.heap[a].path] == a
  }

  /** List and index are in bijection, the limit is kept, and the list is ordered by last use. */
  ghost predicate Lru(c: Cache, lastUse: map<Path, nat>, now: nat) {
    && Sound(c) && |c.entries| <= c.max && FullyIndexed(c) && MostRecentFirst(c.entries, c.heap, lastUse)
    && (forall a :: a in c.heap ==> c.heap[a].path in lastUse && lastUse[c.heap[a].path] < now)
  }

  lemma OrderWithout(entries: seq<nat>, heap: map<nat, Entry>, lastUse: map<Path, nat>, i: nat)
    requires MostRecentFirst(entries, heap, lastUse) && i < |entries|
    ensures MostRecentFirst(entries[..i] + entries[i + 1..], heap, lastUse)
  {
  }

  /** Stamps do not depend on entries that are not listed. */
  lemma OrderElsewhere(entries: seq<nat>, heap: map<nat, Entry>, heap': map<nat, Entry>, lastUse: map<Path, nat>, use: map<Path, nat>)
    requires MostRecentFirst(entries, heap, lastUse)
    requires forall i :: 0 <= i < |entries| ==> Stamp(heap', use, entries[i]) == Stamp(heap, lastUse, entries[i])
    ensures MostRecentFirst(entries, heap', use)
  {
  }

  lemma RemoveOrdered(c: Cache, lastUse: map<Path, nat>, p: Path, i: nat)
    requires Sound(c) && MostRecentFirst(c.entries, c.heap, lastUse) && p in c.index
    requires i < |c.entries| && c.entries[i] == c.index[p]
    ensures MostRecentFirst(RemoveEntry(c, p).entries, RemoveEntry(c, p).heap, lastUse)
  {
    OrderWithout(c.entries, c.heap, lastUse, i);
    WithoutAt(c.entries, i);
    var rest := RemoveEntry(c, p).entries;
    forall j | 0 <= j < |rest| ensures rest[j] != c.index[p] {
      assert rest[j] in rest;
    }
    OrderElsewhere(rest, c.heap, c.heap - {c.index[p]}, lastUse, lastUse);
  }

  lemma RemoveLru(c: Cache, lastUse: map<Path, nat>, now: nat, p: Path)
    requires Lru(c, lastUse, now) && p in c.index
    ensures Lru(RemoveEntry(c, p), lastUse, now) && |RemoveEntry(c, p).entries| == |c.entries| - 1
    ensures p !in RemoveEntry(c, p).index
  {
    RemoveSound(c, p);
    assert c.index[p] in c.entries;
    var i :| 0 <= i < |c.entries| && c.entries[i] == c.index[p];
    RemoveOrdered(c, lastUse, p, i);
  }

  lemma DropLru(c: Cache, lastUse: map<Path, nat>, now: nat)
    requires Lru(c, lastUse, now) && c.entries != []
    ensures c.entries[|c.entries| - 1] in c.heap && Lru(DropEntry(c), lastUse, now)
    ensures |DropEntry(c).entries| == |c.entries| - 1 && forall p :: p in DropEntry(c).index ==> p in c.index
  {
    DropSound(c);
    var n := |c.entries| - 1;
    OrderWithout(c.entries, c.heap, lastUse, n);
    assert c.entries[..n] + c.entries[n + 1..] == c.entries[..n];
    OrderElsewhere(c.entries[..n], c.heap, DropEntry(c).heap, lastUse, lastUse);
  }

  /** Putting an entry in front and stamping its path with the current time. */
  lemma FrontLru(c: Cache, lastUse: map<Path, nat>, now: nat, a: nat, e: Entry)
    requires Lru(c, lastUse, now) && |c.entries| < c.max && a !in c.heap && e.path !in c.index
    ensures Lru(AddEntry(c, a, e), lastUse[e.path := now], now + 1)
  {
    AddSound(c, a, e);
    FrontIndexed(c, a, e);
    FrontOrdered(c, lastUse, now, a, e);
  }

  lemma FrontIndexed(c: Cache, a: nat, e: Entry)
    requires Sound(c) && FullyIndexed(c) && a !in c.heap && e.path !in c.index
    ensures FullyIndexed(AddEntry(c, a, e)) && forall x :: x in c.heap ==> c.heap[x].path != e.path
  {
  }

  lemma FrontOrdered(c: Cache, lastUse: map<Path, nat>, now: nat, a: nat, e: Entry)
    requires Lru(c, lastUse, now) && a !in c.heap && e.path !in c.index
    ensures MostRecentFirst([a] + c.entries, c.heap[a := e], lastUse[e.path := now])
  {
  }

  /** Moving an entry to the front is taking it out and putting it back in front. */
  lemma MoveIsRemoveAdd(c: Cache, p: Path)
    requires Sound(c) && p in c.index
    ensures MoveEntry(c, p) == AddEntry(RemoveEntry(c, p), c.index[p], c.heap[c.index[p]])
  {
    var a := c.index[p];
    assert c.heap[a].path == p && (c.heap - {a})[a := c.heap[a]] == c.heap;
  }

  lemma RoomLru(c: Cache, lastUse: map<Path, nat>, now: nat)
    requires Lru(c, lastUse, now) && c.max >= 1
    ensures Lru(MakeRoom(c), lastUse, now) && |MakeRoom(c).entries| < c.max && MakeRoom(c).max == c.max
    ensures forall p :: p in MakeRoom(c).index ==> p in c.index
    ensures forall a :: a in MakeRoom(c).heap ==> a in c.heap
  {
    if |c.entries| >= c.max {
      DropLru(c, lastUse, now);
    }
  }

  /** One thread: an access keeps the cache an LRU cache, and stamps the path it returns. */
  lemma AccessAloneIsLru(c: Cache, lastUse: map<Path, nat>, now: nat, p: Path, mtime: nat, size: nat,
                         loaded: Option<seq<byte>>, a: nat)
    requires Lru(c, lastUse, now) && c.max >= 1 && a !in c.heap
    ensures var (c', r) := AccessAlone(c, p, mtime, size, loaded, a);
      && c'.max == c.max
      && if r.Some? then Lru(c', lastUse[p := now], now + 1) else Lru(c', lastUse, now)
  {
    if p in c.index {
      RemoveLru(c, lastUse, now, p);
      var without := RemoveEntry(c, p);
      if Fresh(c.heap[c.index[p]], mtime, size) {
        MoveIsRemoveAdd(c, p);
        FrontLru(without, lastUse, now, c.index[p], c.heap[c.index[p]]);
      } else {
        RoomLru(without, lastUse, now);
        if loaded.Some? {
          FrontLru(MakeRoom(without), lastUse, now, a, Entry(p, mtime, loaded.value, size));
        }
      }
    } else {
      RoomLru(c, lastUse, now);
      if loaded.Some? {
        FrontLru(MakeRoom(c), lastUse, now, a, Entry(p, mtime, loaded.value, size));
      }
    }
  }

  /** What is returned is the content of the asked path, of the asked size and not older than asked; it
      is either cached already or just loaded. */
  lemma ResultIsFresh(c: Cache, p: Path, mtime: nat, size: nat, loaded: Option<seq<byte>>, a: nat)
    requires Sound(c) && FullyIndexed(c) && c.max >= 1 && a !in c.heap
    ensures var (c', r) := AccessAlone(c, p, mtime, size, loaded, a);
      r.Some? ==>
        && c'.entries != [] && c'.entries[0] in c'.heap
        && var e := c'.heap[c'.entries[0]];
        && e.path == p && e.content == r.value && e.size == size && e.mtime >= mtime
        && (if c'.entries[0] in c.heap then c.heap[c'.entries[0]] == e else loaded == r)
  {
  }

  /** An entry leaves the cache only because it is the stale entry of the asked path, or because the
      cache is full and it is the least recently used one. */
  lemma EvictsLeastRecentlyUsed(c: Cache, lastUse: map<Path, nat>, now: nat, p: Path, mtime: nat, size: nat,
                                loaded: Option<seq<byte>>, a: nat, x: nat)
    requires Lru(c, lastUse, now) && c.max >= 1 && a !in c.heap && x in c.heap
    ensures x in AccessAlone(c, p, mtime, size, loaded, a).0.heap
         || (c.heap[x].path == p && !Fresh(c.heap[x], mtime, size))
         || (|c.entries| == c.max && forall y :: y in c.heap && y != x ==> Stamp(c.heap, lastUse, y) > Stamp(c.heap, lastUse, x))
  {
    if p in c.index {
      RemoveLru(c, lastUse, now, p);
      assert MakeRoom(RemoveEntry(c, p)) == RemoveEntry(c, p);
    } else {
      LastIsOldest(c, lastUse, now);
    }
  }

  lemma LastIsOldest(c: Cache, lastUse: map<Path, nat>, now: nat)
    requires Lru(c, lastUse, now) && c.entries != []
    ensures var x := c.entries[|c.entries| - 1];
      forall y :: y in c.heap && y != x ==> Stamp(c.heap, lastUse, y) > Stamp(c.heap, lastUse, x)
  {
  }
}
