/** `utils::List`: a circular doubly linked list around a sentinel, its nodes taken from a pool.
    A node is an address; the links and the data of all nodes are maps from addresses. */
module LinkedList {
  import opened TaskQueue
  import opened Memory

  /** The nodes in list order, started at the sentinel. */
  function Ring(sentinel: int, spine: seq<int>): seq<int> {
    [sentinel] + spine
  }

  function Succ(i: nat, n: nat): nat {
    if i + 1 < n then i + 1 else 0
  }

  /** Node `i` of the ring and the one after it point at each other. */
  ghost predicate LinkedAt(ring: seq<int>, next: map<int, int>, prev: map<int, int>, i: nat)
    requires i < |ring|
  {
    var p, q := ring[i], ring[Succ(i, |ring|)];
    p in next && q in prev && next[p] == q && prev[q] == p
  }

  /** `next` and `prev` link the nodes of the ring in a circle. */
  ghost predicate Circular(ring: seq<int>, next: map<int, int>, prev: map<int, int>) {
    NoDup(ring) && forall i :: 0 <= i < |ring| ==> LinkedAt(ring, next, prev, i)
  }

  lemma Neighbours(ring: seq<int>, next: map<int, int>, prev: map<int, int>, i: nat)
    requires Circular(ring, next, prev) && i < |ring|
    ensures ring[i] in next && next[ring[i]] == ring[Succ(i, |ring|)]
    ensures ring[i] in prev && prev[ring[i]] == ring[if i == 0 then |ring| - 1 else i - 1]
  {
    assert LinkedAt(ring, next, prev, i);
    assert LinkedAt(ring, next, prev, if i == 0 then |ring| - 1 else i - 1);
  }

  lemma InsertKeepsNoDup(q: seq<int>, i: nat, x: int)
    requires NoDup(q) && i <= |q| && x !in q
    ensures NoDup(q[..i] + [x] + q[i..])
  {
  }

  /** Linking a new node behind node `i`. */
  lemma InsertKeepsCircular(ring: seq<int>, next: map<int, int>, prev: map<int, int>, i: nat, node: int)
    requires Circular(ring, next, prev) && i < |ring| && node !in ring
    ensures ring[i] in next
    ensures var after := next[ring[i]];
      Circular(ring[..i + 1] + [node] + ring[i + 1..], next[node := after][ring[i] := node], prev[node := ring[i]][after := node])
  {
    Neighbours(ring, next, prev, i);
    var after := next[ring[i]];
    var next' := next[node := after][ring[i] := node];
    var prev' := prev[node := ring[i]][after := node];
    var ring' := ring[..i + 1] + [node] + ring[i + 1..];
    InsertKeepsNoDup(ring, i + 1, node);
    forall k | 0 <= k < |ring'| ensures LinkedAt(ring', next', prev', k) {
      if k < i {
        LinkSurvives(ring, next, prev, i, node, k);
        assert ring'[k] == ring[k] && ring'[k + 1] == ring[k + 1];
      } else if k > i + 1 {
        LinkSurvives(ring, next, prev, i, node, k - 1);
        assert ring'[k] == ring[k - 1] && ring'[Succ(k, |ring'|)] == ring[Succ(k - 1, |ring|)];
      } else {
        assert ring'[i] == ring[i] && ring'[i + 1] == node && ring'[Succ(i + 1, |ring'|)] == after;
      }
    }
  }

  /** The new links leave every pair of neighbours alone but the one that the node is put between. */
  lemma LinkSurvives(ring: seq<int>, next: map<int, int>, prev: map<int, int>, i: nat, node: int, k: nat)
    requires Circular(ring, next, prev) && i < |ring| && k < |ring| && k != i && node !in ring
    ensures ring[i] in next
    ensures var after := next[ring[i]];
      LinkedAt(ring, next[node := after][ring[i] := node], prev[node := ring[i]][after := node], k)
  {
    Neighbours(ring, next, prev, i);
    Neighbours(ring, next, prev, k);
    assert LinkedAt(ring, next, prev, k);
    assert Succ(k, |ring|) != Succ(i, |ring|);
  }

  /** Unlinking node `i`, which is not the sentinel. */
  lemma RemoveKeepsCircular(ring: seq<int>, next: map<int, int>, prev: map<int, int>, i: nat)
    requires Circular(ring, next, prev) && 0 < i < |ring|
    ensures ring[i] in next && ring[i] in prev
    ensures Circular(ring[..i] + ring[i + 1..], next[prev[ring[i]] := next[ring[i]]], prev[next[ring[i]] := prev[ring[i]]])
  {
    Neighbours(ring, next, prev, i);
    var p := ring[i];
    var next' := next[prev[p] := next[p]];
    var prev' := prev[next[p] := prev[p]];
    var ring' := ring[..i] + ring[i + 1..];
    forall k | 0 <= k < |ring'| ensures LinkedAt(ring', next', prev', k) {
      if k < i - 1 {
        assert LinkedAt(ring, next, prev, k);
      } else if k >= i {
        assert LinkedAt(ring, next, prev, k + 1);
      }
    }
  }

  /** `Iterator::operator==` compares the links of two nodes, not their addresses. */
  predicate IteratorsEqual(next: map<int, int>, prev: map<int, int>, p: int, q: int)
    requires p in next && p in prev && q in next && q in prev
  {
    next[p] == next[q] && prev[p] == prev[q]
  }

  /** On the nodes of one list, comparing links is comparing addresses. */
  lemma EqualIteratorsAreIdentical(ring: seq<int>, next: map<int, int>, prev: map<int, int>, i: nat, j: nat)
    requires Circular(ring, next, prev) && i < |ring| && j < |ring|
    ensures ring[i] in next && ring[i] in prev && ring[j] in next && ring[j] in prev
    ensures IteratorsEqual(next, prev, ring[i], ring[j]) <==> i == j
  {
    Neighbours(ring, next, prev, i);
    Neighbours(ring, next, prev, j);
  }

  ghost function DataOf(spine: seq<int>, data: map<int, Conn>): (r: seq<Conn>)
    requires forall i :: 0 <= i < |spine| ==> spine[i] in data
    ensures |r| == |spine| && forall i :: 0 <= i < |spine| ==> r[i] == data[spine[i]]
  {
    if spine == [] then [] else [data[spine[0]]] + DataOf(spine[1..], data)
  }

  /** A list with the nodes `spine` around its sentinel. */
  ghost predicate WellLinked(sentinel: int, spine: seq<int>, next: map<int, int>, prev: map<int, int>) {
    sentinel !in spine && Circular(Ring(sentinel, spine), next, prev)
  }

  lemma WellLinkedNoDup(sentinel: int, spine: seq<int>, next: map<int, int>, prev: map<int, int>)
    requires WellLinked(sentinel, spine, next, prev)
    ensures NoDup(spine) && sentinel in next && sentinel in prev
    ensures spine != [] ==> next[sentinel] == spine[0]
    ensures prev[sentinel] == if spine == [] then sentinel else spine[|spine| - 1]
  {
    var ring := Ring(sentinel, spine);
    assert spine == ring[1..];
    Neighbours(ring, next, prev, 0);
  }

  lemma LinkBack(sentinel: int, spine: seq<int>, next: map<int, int>, prev: map<int, int>, node: int)
    requires WellLinked(sentinel, spine, next, prev) && node !in spine && node != sentinel
    ensures sentinel in prev
    ensures var last := prev[sentinel];
      WellLinked(sentinel, spine + [node], next[node := sentinel][last := node], prev[node := last][sentinel := node])
  {
    var ring := Ring(sentinel, spine);
    Neighbours(ring, next, prev, 0);
    Neighbours(ring, next, prev, |ring| - 1);
    InsertKeepsCircular(ring, next, prev, |ring| - 1, node);
    assert ring[..|ring|] + [node] + ring[|ring|..] == Ring(sentinel, spine + [node]);
  }

  lemma LinkFront(sentinel: int, spine: seq<int>, next: map<int, int>, prev: map<int, int>, node: int)
    requires WellLinked(sentinel, spine, next, prev) && node !in spine && node != sentinel
    ensures sentinel in next
    ensures var first := next[sentinel];
      WellLinked(sentinel, [node] + spine, next[node := first][sentinel := node], prev[node := sentinel][first := node])
  {
    var ring := Ring(sentinel, spine);
    Neighbours(ring, next, prev, 0);
    InsertKeepsCircular(ring, next, prev, 0, node);
    assert ring[..1] + [node] + ring[1..] == Ring(sentinel, [node] + spine);
  }

  lemma Unlink(sentinel: int, spine: seq<int>, next: map<int, int>, prev: map<int, int>, i: nat)
    requires WellLinked(sentinel, spine, next, prev) && i < |spine|
    ensures spine[i] in next && spine[i] in prev
    ensures var p := spine[i];
      WellLinked(sentinel, spine[..i] + spine[i + 1..], next[prev[p] := next[p]], prev[next[p] := prev[p]])
    ensures i == 0 ==> prev[spine[i]] == sentinel
    ensures prev[spine[i]] != spine[i] && next[spine[i]] != spine[i]
  {
    var ring := Ring(sentinel, spine);
    assert ring[i + 1] == spine[i];
    Neighbours(ring, next, prev, i + 1);
    RemoveKeepsCircular(ring, next, prev, i + 1);
    assert ring[..i + 1] + ring[i + 2..] == Ring(sentinel, spine[..i] + spine[i + 1..]);
  }

  lemma RemovedElements(q: seq<int>, i: nat)
    requires NoDup(q) && i < |q|
    ensures Elements(q[..i] + q[i + 1..]) == Elements(q) - {q[i]}
  {
  }

  /** Unlinking the first node. */
  lemma UnlinkFirst(sentinel: int, spine: seq<int>, next: map<int, int>, prev: map<int, int>)
    requires WellLinked(sentinel, spine, next, prev) && spine != []
    ensures sentinel in next && next[sentinel] == spine[0] && spine[0] in next && spine[0] in Elements(spine)
    ensures WellLinked(sentinel, spine[1..], next[sentinel := next[spine[0]]], prev[next[spine[0]] := sentinel])
    ensures Elements(spine[1..]) == Elements(spine) - {spine[0]}
  {
    WellLinkedNoDup(sentinel, spine, next, prev);
    Unlink(sentinel, spine, next, prev, 0);
    RemovedElements(spine, 0);
    assert spine[..0] + spine[1..] == spine[1..];
  }

  class List {
    const sentinel: int
    const pool: MemoryPool
    var next: map<int, int>
    var prev: map<int, int>
    var data: map<int, Conn>
    var size: nat
    ghost var spine: seq<int>

    /** The list is well formed, and its nodes are exactly the live objects of the pool. */
    ghost predicate Valid()
      reads this, pool, pool.freeStack
    {
      && pool.Valid() && size == |spine|
      && WellLinked(sentinel, spine, next, prev)
      && Elements(spine) == pool.live
      && (forall i :: 0 <= i < |spine| ==> spine[i] in data)
    }

    ghost function Values(): seq<Conn>
      requires Valid()
      reads this, pool, pool.freeStack
    {
      DataOf(spine, data)
    }

    constructor (pool: MemoryPool, sentinel: int)
      requires pool.Valid() && pool.live == {}
      ensures Valid() && spine == [] && this.pool == pool && this.sentinel == sentinel
    {
      this.pool, this.sentinel := pool, sentinel;
      next, prev, data, size := map[sentinel := sentinel], map[sentinel := sentinel], map[], 0;
      spine := [];
    }

    /** What `malloc` promises: a block apart from the sentinel, the pool and every live node. */
    ghost predicate MallocOk(malloc: int)
      reads this, pool, pool.freeStack
    {
      && !pool.IsInsidePool(malloc) && malloc != sentinel && !pool.IsInsidePool(sentinel)
      && (forall q :: q in pool.live ==> Apart(malloc, q, pool.objSize))
      && (forall i :: 0 <= i < pool.freeStack.Length ==> Apart(malloc, Slot(pool.blkPtr, pool.objSize, i), pool.objSize))
    }

    method PushBack(obj: Conn, malloc: int) returns (node: int)
      requires Valid() && MallocOk(malloc)
      modifies this, pool
      ensures Valid() && node !in old(spine) && spine == old(spine) + [node] && data == old(data)[node := obj]
    {
      node := pool.AllocObject(malloc);
      assert node !in Elements(spine);
      LinkBack(sentinel, spine, next, prev, node);
      data := data[node := obj];
      var last := prev[sentinel];
      next := next[node := sentinel];
      prev := prev[node := last];
      next := next[last := node];
      prev := prev[sentinel := node];
      size := size + 1;
      spine := spine + [node];
    }

    method PushFront(obj: Conn, malloc: int) returns (node: int)
      requires Valid() && MallocOk(malloc)
      modifies this, pool
      ensures Valid() && node !in old(spine) && spine == [node] + old(spine) && data == old(data)[node := obj]
    {
      node := pool.AllocObject(malloc);
      assert node !in Elements(spine);
      LinkFront(sentinel, spine, next, prev, node);
      data := data[node := obj];
      var first := next[sentinel];
      next := next[node := first];
      prev := prev[node := sentinel];
      prev := prev[first := node];
      next := next[sentinel := node];
      size := size + 1;
      spine := [node] + spine;
    }

    /** Unlinks a node and gives it back to the pool. */
    method Erase(node: int, ghost i: nat)
      requires Valid() && i < |spine| && spine[i] == node
      modifies this, pool, pool.freeStack
      ensures Valid() && spine == old(spine[..i] + spine[i + 1..]) && data == old(data)
    {
      WellLinkedNoDup(sentinel, spine, next, prev);
      Unlink(sentinel, spine, next, prev, i);
      RemovedElements(spine, i);
      assert node in Elements(spine);
      prev := prev[next[node] := prev[node]];
      next := next[prev[node] := next[node]];
      pool.FreeObject(node);
      size := size - 1;
      spine := spine[..i] + spine[i + 1..];
    }

    method PopFront()
      requires Valid()
      modifies this, pool, pool.freeStack
      ensures Valid() && data == old(data) && spine == if old(spine) == [] then [] else old(spine[1..])
    {
      if size == 0 {
        return;
      }
      UnlinkFirst(sentinel, spine, next, prev);
      var node := next[sentinel];
      var after := next[node];
      next := next[sentinel := after];
      prev := prev[after := sentinel];
      pool.FreeObject(node);
      size := size - 1;
      spine := spine[1..];
    }

    /** Reads the first node's data. */
    method Front() returns (obj: Conn)
      requires Valid() && spine != []
      ensures obj == Values()[0]
    {
      WellLinkedNoDup(sentinel, spine, next, prev);
      obj := data[next[sentinel]];
    }
  }
}
