/** `FDMap` and `QueueScheduler`: an fd-indexed linked queue of connections. */
module Scheduler {
  import opened TaskQueue
  import opened Memory
  import opened LinkedList
  import opened Basics

  /** `utils::FDMap`: a table of iterators into a list of items, indexed by file descriptor. An
      iterator is a number, END the past-the-end one. */
  class FDMap {
    const END := -1
    const table: array<int>
    var items: map<int, int>     // item list: iterator to value
    var fresh_: int              // the next iterator to hand out
    ghost var contents: map<nat, int>

    /** `contents` is the value stored for each descriptor. */
    ghost predicate Valid()
      reads this, table
    {
      && fresh_ >= 0
      && (forall i :: 0 <= i < table.Length && table[i] != END ==> table[i] in items && table[i] < fresh_)
      && (forall i, j :: 0 <= i < j < table.Length && table[i] != END ==> table[i] != table[j])
      && (forall fd :: fd in contents <==> 0 <= fd < table.Length && table[fd] != END)
      && (forall fd :: fd in contents ==> contents[fd] == items[table[fd]])
    }

    constructor (maxSize: nat)
      ensures Valid() && fresh(table) && table.Length == maxSize && contents == map[]
    {
      table := new int[maxSize](_ => -1);
      items, fresh_, contents := map[], 0, map[];
    }

    method Find(fd: nat) returns (r: Option<int>)
      requires Valid() && fd < table.Length
      ensures r == if fd in contents then Some(contents[fd]) else None
    {
      r := if table[fd] == END then None else Some(items[table[fd]]);
    }

    method Erase(fd: nat) returns (ok: bool)
      requires Valid() && fd < table.Length
      modifies this, table
      ensures Valid() && ok == (fd in old(contents)) && contents == old(contents) - {fd}
    {
      if table[fd] == END {
        return false;
      }
      items := items - {table[fd]};
      table[fd] := END;
      contents := contents - {fd};
      return true;
    }

    method Insert(fd: nat, value: int) returns (ok: bool)
      requires Valid() && fd < table.Length
      modifies this, table
      ensures Valid() && ok == (fd !in old(contents))
      ensures contents == if ok then old(contents)[fd := value] else old(contents)
    {
      if table[fd] != END {
        return false;
      }
      table[fd] := fresh_;
      items := items[fresh_ := value];
      fresh_ := fresh_ + 1;
      contents := contents[fd := value];
      return true;
    }
  }

  /** The index has exactly one entry per queued connection, and it leads to the node that carries it. */
  ghost predicate Bijective(spine: seq<int>, data: map<int, Conn>, index: map<nat, int>) {
    && (forall i :: 0 <= i < |spine| ==> spine[i] in data && data[spine[i]] in index && index[data[spine[i]]] == spine[i])
    && (forall fd :: fd in index ==> index[fd] in spine && index[fd] in data && data[index[fd]] == fd)
  }

  lemma BijectiveNoDup(spine: seq<int>, data: map<int, Conn>, index: map<nat, int>)
    requires Bijective(spine, data, index) && NoDup(spine)
    ensures NoDup(DataOf(spine, data)) && forall fd :: fd in index <==> fd in DataOf(spine, data)
  {
  }

  lemma RestOf(spine: seq<int>, i: nat)
    requires NoDup(spine) && i < |spine|
    ensures var rest := spine[..i] + spine[i + 1..];
      NoDup(rest) && forall x :: x in rest <==> x in spine && x != spine[i]
  {
  }

  /** Taking a connection out of list and index. */
  lemma RemoveBoth(spine: seq<int>, data: map<int, Conn>, index: map<nat, int>, rest: seq<int>, p: int)
    requires Bijective(spine, data, index) && p in spine
    requires forall x :: x in rest <==> x in spine && x != p
    ensures p in data && Bijective(rest, data, index - {data[p]})
  {
    forall i | 0 <= i < |rest|
      ensures rest[i] in data && data[rest[i]] in index - {data[p]} && index[data[rest[i]]] == rest[i]
    {
      assert rest[i] in rest;
      var j :| 0 <= j < |spine| && spine[j] == rest[i];
      var k :| 0 <= k < |spine| && spine[k] == p;
    }
  }

  lemma DataWithout(spine: seq<int>, data: map<int, Conn>, i: nat)
    requires i < |spine| && forall j :: 0 <= j < |spine| ==> spine[j] in data
    requires NoDup(DataOf(spine, data))
    ensures var rest := spine[..i] + spine[i + 1..];
      && (forall j :: 0 <= j < |rest| ==> rest[j] in data)
      && DataOf(rest, data) == Without(DataOf(spine, data), data[spine[i]])
  {
    var q, rest := DataOf(spine, data), spine[..i] + spine[i + 1..];
    WithoutAt(q, i);
    assert q[i] == data[spine[i]];
    var q' := DataOf(rest, data);
    assert q' == q[..i] + q[i + 1..] by {
      assert forall j :: 0 <= j < |q'| ==> q'[j] == data[rest[j]];
    }
  }

  lemma Dropped(spine: seq<int>, data: map<int, Conn>, index: map<nat, int>, i: nat)
    requires Bijective(spine, data, index) && NoDup(spine) && i < |spine|
    ensures var rest := spine[..i] + spine[i + 1..];
      && Bijective(rest, data, index - {data[spine[i]]})
      && NoDup(DataOf(spine, data)) && DataOf(rest, data) == Without(DataOf(spine, data), data[spine[i]])
  {
    BijectiveNoDup(spine, data, index);
    RestOf(spine, i);
    RemoveBoth(spine, data, index, spine[..i] + spine[i + 1..], spine[i]);
    DataWithout(spine, data, i);
  }

  lemma DroppedFirst(spine: seq<int>, data: map<int, Conn>, index: map<nat, int>)
    requires Bijective(spine, data, index) && NoDup(spine) && spine != []
    ensures Bijective(spine[1..], data, index - {data[spine[0]]})
    ensures DataOf(spine[1..], data) == DataOf(spine, data)[1..]
  {
  }

  /** Adding a connection to the front or the back of the list, and to the index. */
  lemma AddBoth(spine: seq<int>, data: map<int, Conn>, index: map<nat, int>, node: int, fd: nat)
    requires Bijective(spine, data, index) && node !in spine && fd !in index
    ensures Bijective([node] + spine, data[node := fd], index[fd := node])
    ensures DataOf([node] + spine, data[node := fd]) == [fd] + DataOf(spine, data)
    ensures Bijective(spine + [node], data[node := fd], index[fd := node])
    ensures DataOf(spine + [node], data[node := fd]) == DataOf(spine, data) + [fd]
  {
  }

  /** Following the link of node `k` leads to the next node of the ring, which compares equal to the sentinel only
      behind the last one. */
  lemma Advance(ring: seq<int>, next: map<int, int>, prev: map<int, int>, k: nat)
    requires Circular(ring, next, prev) && k < |ring|
    ensures ring[k] in next && ring[0] in next && ring[0] in prev
    ensures var it := next[ring[k]];
      && it == ring[Succ(k, |ring|)] && it in next && it in prev
      && (IteratorsEqual(next, prev, it, ring[0]) <==> k == |ring| - 1)
  {
    Neighbours(ring, next, prev, k);
    EqualIteratorsAreIdentical(ring, next, prev, Succ(k, |ring|), 0);
  }

  lemma NextTried(spine: seq<int>, data: map<int, Conn>, k: nat)
    requires k < |spine| && forall i :: 0 <= i < |spine| ==> spine[i] in data
    ensures DataOf(spine, data)[..k] + [data[spine[k]]] == DataOf(spine, data)[..k + 1]
  {
  }

  /** The scan of `pick_task_lock_connection`: walks the links from `begin` until the iterator equals `end`. */
  method ScanRing(sentinel: int, ghost spine: seq<int>, next: map<int, int>, prev: map<int, int>, data: map<int, Conn>, outcome: seq<bool>)
    returns (found: Option<int>, tried: seq<Conn>)
    requires WellLinked(sentinel, spine, next, prev) && |outcome| >= |spine| && forall i :: 0 <= i < |spine| ==> spine[i] in data
    ensures |tried| <= |spine| && tried == DataOf(spine, data)[..|tried|]
    ensures found.None? ==> |tried| == |spine| && forall i :: 0 <= i < |tried| ==> !outcome[i]
    ensures found.Some? ==> tried != [] && found.value == spine[|tried| - 1]
    ensures found.Some? ==> outcome[|tried| - 1] && forall i :: 0 <= i < |tried| - 1 ==> !outcome[i]
  {
    ghost var ring := Ring(sentinel, spine);
    Advance(ring, next, prev, 0);
    var it := next[sentinel];
    tried := [];
    while !IteratorsEqual(next, prev, it, sentinel)
      invariant |tried| <= |spine| && it == ring[Succ(|tried|, |ring|)]
      invariant it in next && it in prev && sentinel in next && sentinel in prev
      invariant IteratorsEqual(next, prev, it, sentinel) <==> |tried| == |spine|
      invariant tried == DataOf(spine, data)[..|tried|] && forall j :: 0 <= j < |tried| ==> !outcome[j]
      decreases |spine| - |tried|
    {
      NextTried(spine, data, |tried|);
      tried := tried + [data[it]];
      if outcome[|tried| - 1] {
        return Some(it), tried;
      }
      Advance(ring, next, prev, |tried|);
      it := next[it];
    }
    found := None;
  }

  class QueueScheduler {
    const list: List
    const nodes: FDMap

    ghost predicate Valid()
      reads this, list, list.pool, list.pool.freeStack, nodes, nodes.table
    {
      && list.Valid() && nodes.Valid() && nodes.table != list.pool.freeStack
      && Bijective(list.spine, list.data, nodes.contents)
    }

    ghost function Tasks(): seq<Conn>
      requires Valid()
      reads this, list, list.pool, list.pool.freeStack, nodes, nodes.table
    {
      list.Values()
    }

    constructor (poolSize: nat, base: int, mapped: bool, nodeSize: nat, sentinel: int, maxFd: nat)
      requires nodeSize > 0
      ensures Valid() && Tasks() == [] && nodes.table.Length == maxFd
    {
      var pool := new MemoryPool(poolSize, base, mapped, nodeSize);
      list := new List(pool, sentinel);
      nodes := new FDMap(maxFd);
    }

    /** No connection is queued twice, and the index knows exactly the queued ones. */
    lemma TasksIndexed()
      requires Valid()
      ensures NoDup(list.spine) && NoDup(Tasks()) && forall fd :: fd in nodes.contents <==> fd in Tasks()
    {
      WellLinkedNoDup(list.sentinel, list.spine, list.next, list.prev);
      BijectiveNoDup(list.spine, list.data, nodes.contents);
    }

    /** Unlinks the node of a queued connection and forgets it in the index. */
    method Drop(node: int, ghost i: nat)
      requires Valid() && i < |list.spine| && list.spine[i] == node
      requires list.data[node] < nodes.table.Length
      modifies list, list.pool, list.pool.freeStack, nodes, nodes.table
      ensures Valid() && NoDup(old(Tasks())) && Tasks() == Without(old(Tasks()), old(list.data[node]))
      ensures list.pool.live <= old(list.pool.live)
      ensures nodes.contents == old(nodes.contents) - {old(list.data[node])}
    {
      TasksIndexed();
      Dropped(list.spine, list.data, nodes.contents, i);
      var conn := list.data[node];
      list.Erase(node, i);
      var _ := nodes.Erase(conn);
    }

    /** `remove_task`. */
    method RemoveTask(conn: Conn)
      requires Valid() && conn < nodes.table.Length
      modifies list, list.pool, list.pool.freeStack, nodes, nodes.table
      ensures Valid() && NoDup(old(Tasks())) && Tasks() == Without(old(Tasks()), conn)
      ensures conn !in nodes.contents
    {
      TasksIndexed();
      var it := nodes.Find(conn);
      if it.None? {
        WithoutAbsent(Tasks(), conn);
        return;
      }
      ghost var i :| 0 <= i < |list.spine| && list.spine[i] == it.value;
      Drop(it.value, i);
    }

    /** `add_task`: a queued connection moves to the front; a new one goes to the back, and the waiting
        workers are notified only if the queue was empty. */
    method AddTask(conn: Conn, malloc: int) returns (notify: bool)
      requires Valid() && conn < nodes.table.Length && list.MallocOk(malloc)
      modifies list, list.pool, list.pool.freeStack, nodes, nodes.table
      ensures Valid() && NoDup(old(Tasks())) && Tasks() == Added(old(Tasks()), conn)
      ensures notify == (old(Tasks()) == [])
    {
      TasksIndexed();
      var it := nodes.Find(conn);
      if it.Some? {
        ghost var i :| 0 <= i < |list.spine| && list.spine[i] == it.value;
        Drop(it.value, i);
        notify := false;
        InsertFront(conn, malloc);
      } else {
        notify := list.size == 0;
        InsertBack(conn, malloc);
      }
    }

    method InsertBack(conn: Conn, malloc: int)
      requires Valid() && conn < nodes.table.Length && list.MallocOk(malloc) && conn !in nodes.contents
      modifies list, list.pool, nodes, nodes.table
      ensures Valid() && Tasks() == old(Tasks()) + [conn]
    {
      ghost var spine, data, index := list.spine, list.data, nodes.contents;
      var node := list.PushBack(conn, malloc);
      AddBoth(spine, data, index, node, conn);
      var _ := nodes.Insert(conn, node);
    }

    method InsertFront(conn: Conn, malloc: int)
      requires Valid() && conn < nodes.table.Length && list.MallocOk(malloc) && conn !in nodes.contents
      modifies list, list.pool, nodes, nodes.table
      ensures Valid() && Tasks() == [conn] + old(Tasks())
    {
      ghost var spine, data, index := list.spine, list.data, nodes.contents;
      var node := list.PushFront(conn, malloc);
      AddBoth(spine, data, index, node, conn);
      WellLinkedNoDup(list.sentinel, list.spine, list.next, list.prev);
      var _ := nodes.Insert(conn, list.next[list.sentinel]);
    }

    /** `pick_task_nolock_connection` of a queue that is not empty. */
    method PickNolock() returns (conn: Conn)
      requires Valid() && Tasks() != []
      modifies list, list.pool, list.pool.freeStack, nodes, nodes.table
      ensures Valid() && conn == old(Tasks())[0] && Tasks() == old(Tasks())[1..]
    {
      TasksIndexed();
      DroppedFirst(list.spine, list.data, nodes.contents);
      conn := list.Front();
      list.PopFront();
      var _ := nodes.Erase(conn);
    }

    /** The scan of `pick_task_lock_connection`: `outcome[i]` is the result of the i-th `try_lock`. It
        walks the links from `begin` until the iterator equals `end`, trying each queued connection
        once and in order, and stops at the first that it can lock. */
    method Scan(outcome: seq<bool>) returns (found: Option<int>, tried: seq<Conn>)
      requires Valid() && |outcome| >= |Tasks()|
      ensures |tried| <= |Tasks()| && tried == Tasks()[..|tried|]
      ensures found.None? ==> |tried| == |Tasks()| && forall i :: 0 <= i < |tried| ==> !outcome[i]
      ensures found.Some? ==> tried != [] && found.value == list.spine[|tried| - 1]
      ensures found.Some? ==> outcome[|tried| - 1] && forall i :: 0 <= i < |tried| - 1 ==> !outcome[i]
    {
      found, tried := ScanRing(list.sentinel, list.spine, list.next, list.prev, list.data, outcome);
    }

    /** `pick_task_lock_connection`, one scan: takes the first connection it can lock out of the queue. */
    method PickLock(outcome: seq<bool>) returns (picked: Option<Conn>, tried: seq<Conn>)
      requires Valid() && |outcome| >= |Tasks()|
      modifies list, list.pool, list.pool.freeStack, nodes, nodes.table
      ensures Valid() && NoDup(old(Tasks())) && |tried| <= old(|Tasks()|) && tried == old(Tasks())[..|tried|]
      ensures picked.None? ==> tried == old(Tasks()) && (forall i :: 0 <= i < |tried| ==> !outcome[i]) && Tasks() == old(Tasks())
      ensures picked.Some? ==> tried != [] && picked.value == tried[|tried| - 1]
      ensures picked.Some? ==> outcome[|tried| - 1] && (forall i :: 0 <= i < |tried| - 1 ==> !outcome[i])
      ensures picked.Some? ==> Tasks() == Without(old(Tasks()), picked.value)
    {
      TasksIndexed();
      var found;
      found, tried := Scan(outcome);
      if found.None? {
        return None, tried;
      }
      picked := Some(tried[|tried| - 1]);
      Drop(found.value, |tried| - 1);
    }
  }
}
