/** `IOCache` as the object it is: list, index and allocated entries updated in place, under a mutex that
    `access_cache` gives up while it reads a file. */
module IoCacheClass {
  import opened TaskQueue
  import opened Basics
  import opened Pages
  import opened IoCache

  class IOCache {
    const max: nat
    const maxEntrySize: nat
    var entries: seq<nat>
    var heap: map<nat, Entry>
    var index: map<Path, nat>
    var held: bool
    ghost var acquired: nat
    ghost var released: nat

    ghost function Value(): Cache
      reads this
    {
      Cache(max, entries, heap, index)
    }

    /** The mutex is held exactly between an acquisition and its release. */
    ghost predicate Balanced()
      reads this
    {
      acquired == released + (if held then 1 else 0)
    }

    constructor (max: nat, maxEntrySize: nat)
      ensures Value() == Start(max).cache && this.maxEntrySize == maxEntrySize
      ensures !held && Balanced() && acquired == 0
    {
      this.max, this.maxEntrySize := max, maxEntrySize;
      entries, heap, index := [], map[], map[];
      held, acquired, released := false, 0, 0;
    }

    method Lock()
      requires !held
      modifies this`held, this`acquired
      ensures held && acquired == old(acquired) + 1
    {
      held, acquired := true, acquired + 1;
    }

    method Unlock()
      requires held
      modifies this`held, this`released
      ensures !held && released == old(released) + 1
    {
      held, released := false, released + 1;
    }

    /** `delete entry`: only an allocated entry may be freed. */
    method Free(a: nat)
      requires held && a in heap
      modifies this`heap
      ensures heap == old(heap) - {a}
    {
      heap := heap - {a};
    }

    method PushFront(a: nat)
      requires held && a in heap
      modifies this`entries, this`index
      ensures entries == [a] + old(entries)
      ensures index == if heap[a].path in old(index) then old(index) else old(index)[heap[a].path := a]
    {
      entries := [a] + entries;
      if heap[a].path !in index {
        index := index[heap[a].path := a];
      }
    }

    method AddEntry(a: nat, e: Entry)
      requires held && a !in heap
      modifies this`entries, this`index, this`heap
      ensures Value() == IoCache.AddEntry(old(Value()), a, e)
    {
      heap := heap[a := e];
      PushFront(a);
    }

    method MoveEntry(p: Path)
      requires held && Sound(Value()) && p in index
      modifies this`entries, this`index
      ensures Value() == IoCache.MoveEntry(old(Value()), p)
    {
      var a := index[p];
      entries := Without(entries, a);
      index := index - {p};
      PushFront(a);
    }

    method DropEntry()
      requires held && Sound(Value()) && entries != []
      modifies this`entries, this`index, this`heap
      ensures old(entries[|entries| - 1] in heap) && Value() == IoCache.DropEntry(old(Value()))
    {
      var a := entries[|entries| - 1];
      assert a in entries;
      entries := entries[..|entries| - 1];
      index := index - {heap[a].path};
      Free(a);
    }

    method RemoveEntry(p: Path)
      requires held && Sound(Value()) && p in index
      modifies this`entries, this`index, this`heap
      ensures Value() == IoCache.RemoveEntry(old(Value()), p)
    {
      var a := index[p];
      entries := Without(entries, a);
      index := index - {p};
      Free(a);
    }

    /** `create_cache_entry`: `file` is what reading the file yields, None when it cannot be read. */
    method CreateCacheEntry(p: Path, mtime: nat, size: nat, file: Option<seq<byte>>) returns (e: Option<Entry>)
      ensures e == if size < maxEntrySize && file.Some? then Some(Entry(p, mtime, file.value, size)) else None
    {
      if size >= maxEntrySize || file.None? {
        return None;
      }
      return Some(Entry(p, mtime, file.value, size));
    }

    /** What other threads did to the cache while the mutex was free. */
    method Resume(others: Cache)
      requires !held && others.max == max
      modifies this`entries, this`heap, this`index
      ensures Value() == others
    {
      entries, heap, index := others.entries, others.heap, others.index;
    }

    /** `load_cache`: enters with the mutex held; `others` is the cache when it takes the mutex again. */
    method LoadCache(p: Path, mtime: nat, size: nat, file: Option<seq<byte>>, others: Cache, a: nat) returns (r: Option<seq<byte>>)
      requires held && Balanced() && Sound(Value()) && max >= 1
      requires Sound(others) && others.max == max && a !in others.heap
      modifies this
      ensures !held && Balanced() && Sound(Value())
      ensures r == if size < maxEntrySize then file else None
      ensures Value() == if r.Some? then IoCache.AddEntry(others, a, Entry(p, mtime, r.value, size)) else old(MakeRoom(Value()))
      ensures acquired == old(acquired) + if r.Some? then 1 else 0
    {
      if |entries| >= max {
        DropSound(Value());
        DropEntry();
      }
      Unlock();
      var entry := CreateCacheEntry(p, mtime, size, file);
      if entry.None? {
        return None;
      }
      Resume(others);
      Lock();
      AddSound(Value(), a, entry.value);
      AddEntry(a, entry.value);
      r := Some(heap[a].content);
      Unlock();
    }

    method SyncCache(p: Path, mtime: nat, size: nat, file: Option<seq<byte>>, others: Cache, a: nat) returns (r: Option<seq<byte>>)
      requires held && Balanced() && Sound(Value()) && max >= 1 && p in index
      requires Sound(others) && others.max == max && a !in others.heap
      modifies this
      ensures !held && Balanced() && Sound(Value())
      ensures AccessOutcome(old(Value()), p, mtime, size, if size < maxEntrySize then file else None, others, a, Value(), r)
    {
      var e := heap[index[p]];
      LookIndexed(Value(), p, mtime, size);
      if e.mtime >= mtime && e.mtime != 0 && e.size == size {
        MoveSound(Value(), p);
        MoveEntry(p);
        r := Some(e.content);
        Unlock();
      } else {
        RemoveEntry(p);
        r := LoadCache(p, mtime, size, file, others, a);
      }
    }

    /** `access_cache`: whatever the other threads do in between, the outcome is that of its two critical
        sections, and every acquisition of the mutex has been released. */
    method AccessCache(p: Path, mtime: nat, size: nat, file: Option<seq<byte>>, others: Cache, a: nat) returns (r: Option<seq<byte>>)
      requires !held && Balanced() && Sound(Value())
      requires Sound(others) && others.max == max && a !in others.heap
      modifies this
      ensures !held && Balanced() && Sound(Value())
      ensures max == 0 ==> r.None? && Value() == old(Value()) && acquired == old(acquired)
      ensures max >= 1 ==>
        AccessOutcome(old(Value()), p, mtime, size, if size < maxEntrySize then file else None, others, a, Value(), r)
    {
      if max == 0 {
        return None;
      }
      Lock();
      if p in index {
        r := SyncCache(p, mtime, size, file, others, a);
      } else {
        r := LoadCache(p, mtime, size, file, others, a);
      }
    }
  }

  /** The first critical section when the path is indexed: a fresh entry moves to the front, a stale one goes. */
  lemma LookIndexed(c: Cache, p: Path, mtime: nat, size: nat)
    requires Sound(c) && c.max >= 1 && p in c.index
    ensures Sound(RemoveEntry(c, p))
    ensures Look(c, p, mtime, size) ==
      if Fresh(c.heap[c.index[p]], mtime, size) then (MoveEntry(c, p), Some(c.heap[c.index[p]].content))
      else (MakeRoom(RemoveEntry(c, p)), None)
  {
  }

  /** An access that began in `c` and, if it had to load, went on in `others`, leaves `c'` and returns `r`. */
  ghost predicate AccessOutcome(c: Cache, p: Path, mtime: nat, size: nat, loaded: Option<seq<byte>>, others: Cache, a: nat,
                                c': Cache, r: Option<seq<byte>>)
    requires Sound(c) && c.max >= 1
  {
    var (mid, hit) := Look(c, p, mtime, size);
    if hit.Some? then c' == mid && r == hit
    else if loaded.None? then c' == mid && r == None
    else c' == AddEntry(others, a, Entry(p, mtime, loaded.value, size)) && r == loaded
  }

  /** With interference, an access that had to load is followed by a hit on its own bytes exactly when no other thread has
      indexed the path in the meantime, or has done so with a current entry of the same bytes. */
  lemma LoadedIsHitExactly(c: Cache, p: Path, mtime: nat, size: nat, content: seq<byte>, others: Cache, a: nat, c': Cache, r: Option<seq<byte>>)
    requires Sound(c) && c.max >= 1 && mtime > 0 && Look(c, p, mtime, size).1.None?
    requires Sound(others) && others.max >= 1 && a !in others.heap
    requires AccessOutcome(c, p, mtime, size, Some(content), others, a, c', r)
    ensures r == Some(content) && Sound(c') && c'.max >= 1
    ensures Look(c', p, mtime, size).1 == r
      <==> (p in others.index ==>
              var e := others.heap[others.index[p]]; e.mtime >= mtime && e.size == size && e.content == content)
  {
    var e := Entry(p, mtime, content, size);
    AddSound(others, a, e);
    HitExactly(c', p, mtime, size);
  }

  /** Without interference the outcome is that of the sequential cache. */
  lemma AloneIsSequential(c: Cache, p: Path, mtime: nat, size: nat, loaded: Option<seq<byte>>, a: nat, c': Cache, r: Option<seq<byte>>)
    requires Sound(c) && c.max >= 1
    requires AccessOutcome(c, p, mtime, size, loaded, Look(c, p, mtime, size).0, a, c', r)
    ensures (c', r) == AccessAlone(c, p, mtime, size, loaded, a)
  {
  }

  // ------------------------------------------------------------ an access among other threads

  /** While a thread loads, the steps of the others leave its load alone. */
  lemma {:induction false} LoadStays(T: nat, y: System, during: seq<Step>, t: nat)
    requires t in y.loads && IoCache.Runs(T, y, during) && forall i :: 0 <= i < |during| ==> during[i].t != t
    ensures var y' := IoCache.Final(T, y, during); t in y'.loads && y'.loads[t] == y.loads[t]
    decreases |during|
  {
    if during != [] {
      LoadStays(T, IoCache.Apply(T, y, during[0]), during[1..], t);
    }
  }

  /** The first critical section is an `Access` step; if it is not a hit, the thread is loading afterwards. */
  lemma FirstSection(T: nat, y: System, t: nat, req: Request)
    requires Sound(y.cache) && y.cache.max >= 1 && t < T && t !in y.loads
    ensures IoCache.Enabled(T, y, IoCache.Access(t, req))
    ensures var y', hit := IoCache.Apply(T, y, IoCache.Access(t, req)), Look(y.cache, req.path, req.mtime, req.size).1;
      && y'.cache == Look(y.cache, req.path, req.mtime, req.size).0
      && (if hit.Some? then t !in y'.loads else t in y'.loads && y'.loads[t] == req)
  {
  }

  lemma OneStep(T: nat, y: System, step: Step)
    requires IoCache.Enabled(T, y, step)
    ensures IoCache.Runs(T, y, [step]) && IoCache.Final(T, y, [step]) == IoCache.Apply(T, y, step)
  {
    assert [step][1..] == [];
  }

  /** A call of `access_cache` by thread `t`, with any steps of other threads during its load, is part of a run of the
      threads: what it leaves is the cache at the end of that run. */
  lemma AccessIsARun(T: nat, y: System, t: nat, req: Request, loaded: Option<seq<byte>>, during: seq<Step>, a: nat,
                     c': Cache, r: Option<seq<byte>>) returns (steps: seq<Step>)
    requires Sound(y.cache) && y.cache.max >= 1 && t < T && t !in y.loads && forall i :: 0 <= i < |during| ==> during[i].t != t
    requires var y1 := IoCache.Apply(T, y, IoCache.Access(t, req));
      && IoCache.Runs(T, y1, during)
      && var others := IoCache.Final(T, y1, during);
      && Sound(others.cache) && others.cache.max >= 1 && a !in others.cache.heap
      && AccessOutcome(y.cache, req.path, req.mtime, req.size, loaded, others.cache, a, c', r)
    ensures IoCache.Runs(T, y, steps) && IoCache.Final(T, y, steps).cache == c' && steps != [] && steps[0] == IoCache.Access(t, req)
    ensures r.Some? ==> t !in IoCache.Final(T, y, steps).loads
  {
    var access := IoCache.Access(t, req);
    FirstSection(T, y, t, req);
    var y1 := IoCache.Apply(T, y, access);
    OneStep(T, y, access);
    steps := [access];
    if t in y1.loads && loaded.Some? {
      LoadStays(T, y1, during, t);
      var others := IoCache.Final(T, y1, during);
      var finish := Finish(t, loaded, a);
      OneStep(T, others, finish);
      RunsConcat(T, y1, during, [finish]);
      RunsConcat(T, y, steps, during + [finish]);
      steps := steps + (during + [finish]);
    }
  }

  /** So the bound of the interleaved cache is a bound on the object: whatever T threads have done before and during a
      call, at most max + T - 1 entries are left. */
  lemma AccessKeepsBound(T: nat, max: nat, before: seq<Step>, t: nat, req: Request, loaded: Option<seq<byte>>, during: seq<Step>,
                         a: nat, c': Cache, r: Option<seq<byte>>)
    requires T >= 1 && max >= 1 && IoCache.Runs(T, Start(max), before) && t < T && forall i :: 0 <= i < |during| ==> during[i].t != t
    requires var y := IoCache.Final(T, Start(max), before);
      && Sound(y.cache) && y.cache.max >= 1 && t !in y.loads
      && var y1 := IoCache.Apply(T, y, IoCache.Access(t, req));
      && IoCache.Runs(T, y1, during)
      && var others := IoCache.Final(T, y1, during);
      && Sound(others.cache) && others.cache.max >= 1 && a !in others.cache.heap
      && AccessOutcome(y.cache, req.path, req.mtime, req.size, loaded, others.cache, a, c', r)
    ensures |c'.entries| <= max + T - 1 && Sound(c')
  {
    var y := IoCache.Final(T, Start(max), before);
    var steps := AccessIsARun(T, y, t, req, loaded, during, a, c', r);
    RunsConcat(T, Start(max), before, steps);
    RunKeepsInv(T, max, Start(max), before + steps);
  }

  // ------------------------------------------------------------ runs of one thread

  datatype Access = Access(path: Path, mtime: nat, size: nat, loaded: Option<seq<byte>>, address: nat)

  /** Every access hands out a new address. */
  ghost predicate Sequential(c: Cache, run: seq<Access>)
    decreases |run|
  {
    run == [] || (Sound(c) && c.max >= 1 && run[0].address !in c.heap && Sequential(After(c, run[0]).0, run[1..]))
  }

  function After(c: Cache, x: Access): (Cache, Option<seq<byte>>)
    requires Sound(c) && c.max >= 1
  {
    AccessAlone(c, x.path, x.mtime, x.size, x.loaded, x.address)
  }

  /** The cache at the end of a run, and the time at which each path was last returned, counted in accesses that
      returned something. */
  ghost function Outcome(c: Cache, run: seq<Access>, use: map<Path, nat>, now: nat): (Cache, map<Path, nat>, nat)
    requires Sequential(c, run)
    decreases |run|
  {
    if run == [] then (c, use, now)
    else
      var (c', r) := After(c, run[0]);
      if r.Some? then Outcome(c', run[1..], use[run[0].path := now], now + 1)
      else Outcome(c', run[1..], use, now)
  }

  /** Over every run of one thread: list and index stay in bijection, the limit is kept, and the list is in
      the order of last use. */
  lemma {:induction false} SequentialRunIsLru(c: Cache, run: seq<Access>, use: map<Path, nat>, now: nat)
    requires Lru(c, use, now) && Sequential(c, run)
    ensures var (c', use', now') := Outcome(c, run, use, now); Lru(c', use', now')
    decreases |run|
  {
    if run != [] {
      AccessAloneIsLru(c, use, now, run[0].path, run[0].mtime, run[0].size, run[0].loaded, run[0].address);
      var (c', r) := After(c, run[0]);
      if r.Some? {
        SequentialRunIsLru(c', run[1..], use[run[0].path := now], now + 1);
      } else {
        SequentialRunIsLru(c', run[1..], use, now);
      }
    }
  }
}
