/** The free-stack allocator under the intrusive list. Addresses are integers. */
module Memory {
  import opened TaskQueue

  /** `align_size` for a mask of low one bits: the least multiple of mask + 1 that is not below `x`. */
  function AlignSize(x: nat, mask: nat): nat {
    (x + mask) / (mask + 1) * (mask + 1)
  }

  const CHUNK_MASK: nat := 0x3FFF
  const BLOCK_MASK: nat := 0x000F

  lemma AlignedIsLeast(x: nat, mask: nat, y: nat)
    ensures AlignSize(x, mask) % (mask + 1) == 0 && x <= AlignSize(x, mask) < x + mask + 1
    ensures y % (mask + 1) == 0 && x <= y ==> AlignSize(x, mask) <= y
  {
    var m := mask + 1;
    var q := (x + mask) / m;
    assert x + mask == q * m + (x + mask) % m;
    MultipleMod(q, m);
    LeastMultiple(x, m, q, y / m);
    assert y % m == 0 ==> y == y / m * m;
  }

  lemma LeastMultiple(x: nat, m: nat, q: nat, k: nat)
    requires m > 0 && q * m <= x + m - 1
    ensures x <= k * m ==> q * m <= k * m
  {
    Monotone(k + 1, q, m);
    Monotone(q, k, m);
    assert (k + 1) * m == k * m + m;
  }

  lemma MultipleMod(q: nat, m: nat)
    requires m > 0
    ensures q * m % m == 0
  {
    var d, r := q * m / m, q * m % m;
    assert q * m == d * m + r;
    Monotone(q + 1, d, m);
    Monotone(d + 1, q, m);
  }

  lemma Monotone(a: int, b: int, m: nat)
    ensures a <= b ==> a * m <= b * m
  {
  }

  /** The number of objects of `objSize` bytes that fit a block. */
  function Capacity(block: nat, objSize: nat): (n: nat)
    requires objSize > 0
    ensures n * objSize <= block < n * objSize + objSize
  {
    block / objSize
  }

  /** Address of slot `i` of the pool. */
  function Slot(base: int, objSize: nat, i: nat): int {
    base + i * objSize
  }

  ghost function Slots(base: int, objSize: nat, n: nat): set<int> {
    set i | 0 <= i < n :: Slot(base, objSize, i)
  }

  ghost function Elements(q: seq<int>): set<int> {
    set x | x in q
  }

  /** Whether the blocks of `size` bytes at `p` and `q` have no byte in common. */
  ghost predicate Apart(p: int, q: int, size: nat) {
    p + size <= q || q + size <= p
  }

  lemma SlotsApart(base: int, objSize: nat, i: nat, j: nat)
    requires i != j
    ensures Apart(Slot(base, objSize, i), Slot(base, objSize, j), objSize)
  {
    Monotone(i + 1, j, objSize);
    Monotone(j + 1, i, objSize);
    assert (i + 1) * objSize == i * objSize + objSize && (j + 1) * objSize == j * objSize + objSize;
  }

  /** A sequence without duplicates drawn from a set is no longer than the set is large. */
  lemma {:induction false} NoDupFits(q: seq<int>, s: set<int>)
    requires NoDup(q) && Elements(q) <= s
    ensures |q| <= |s|
  {
    if q != [] {
      var x := q[0];
      assert x in Elements(q);
      assert forall y :: y in q[1..] ==> y in q && y != x;
      NoDupFits(q[1..], s - {x});
    }
  }

  lemma {:induction false} SlotsExact(base: int, objSize: nat, n: nat)
    requires objSize > 0
    ensures |Slots(base, objSize, n)| == n
  {
    if n > 0 {
      SlotsExact(base, objSize, n - 1);
      assert Slots(base, objSize, n) == Slots(base, objSize, n - 1) + {Slot(base, objSize, n - 1)};
      forall i | 0 <= i < n - 1 ensures Slot(base, objSize, i) != Slot(base, objSize, n - 1) {
        SlotsApart(base, objSize, i, n - 1);
      }
    } else {
      assert Slots(base, objSize, 0) == {};
    }
  }

  lemma {:induction false} ElementsCount(q: seq<int>)
    requires NoDup(q)
    ensures |Elements(q)| == |q|
  {
    if q == [] {
      assert Elements(q) == {};
    } else {
      ElementsCount(q[1..]);
      assert Elements(q) == {q[0]} + Elements(q[1..]);
    }
  }

  /** The loop of `initialize`: every slot, in address order. */
  method FillStack(base: int, objSize: nat, n: nat) returns (stack: array<int>)
    requires objSize > 0
    ensures fresh(stack) && stack.Length == n && NoDup(stack[..])
    ensures forall j :: 0 <= j < n ==> stack[j] == Slot(base, objSize, j)
  {
    stack := new int[n](_ => 0);
    var cur := base;
    for i := 0 to n
      invariant cur == Slot(base, objSize, i)
      invariant forall j :: 0 <= j < i ==> stack[j] == Slot(base, objSize, j)
    {
      stack[i] := cur;
      cur := cur + objSize;
      assert (i + 1) * objSize == i * objSize + objSize;
    }
    forall i, j | 0 <= i < j < n ensures stack[i] != stack[j] {
      SlotsApart(base, objSize, i, j);
    }
  }

  class MemoryPool {
    const blkPtr: int
    const blkSize: nat
    const objSize: nat
    const freeStack: array<int>
    var freeTop: nat
    ghost var live: set<int>         // objects handed out and not given back

    ghost function Free(): seq<int>
      requires freeTop <= freeStack.Length
      reads this, freeStack
    {
      freeStack[..freeTop]
    }

    predicate IsInsidePool(p: int) {
      blkPtr <= p < blkPtr + blkSize
    }

    /** The free stack and the live objects inside the pool partition the slots, and no two live
        objects overlap. */
    ghost predicate Valid()
      reads this, freeStack
    {
      && freeTop <= freeStack.Length && objSize > 0 && freeStack.Length * objSize <= blkSize
      && NoDup(Free())
      && Elements(Free()) !! live
      && Elements(Free()) + (set p | p in live && IsInsidePool(p)) == Slots(blkPtr, objSize, freeStack.Length)
      && (forall p, q :: p in live && q in live && p != q ==> Apart(p, q, objSize))
      && (forall p, i :: p in live && !IsInsidePool(p) && 0 <= i < freeStack.Length
                         ==> Apart(p, Slot(blkPtr, objSize, i), objSize))
    }

    lemma SlotIsInside(i: nat)
      requires objSize > 0 && freeStack.Length * objSize <= blkSize && i < freeStack.Length
      ensures IsInsidePool(Slot(blkPtr, objSize, i))
    {
    }

    /** A free slot overlaps no live object. */
    lemma FreeSlotIsApart(p: int, q: int)
      requires Valid() && p in Free() && q in live
      ensures IsInsidePool(p) && p != q && Apart(p, q, objSize)
    {
      assert p in Elements(Free());
      assert p in Slots(blkPtr, objSize, freeStack.Length);
      var i: nat :| i < freeStack.Length && p == Slot(blkPtr, objSize, i);
      SlotIsInside(i);
      if IsInsidePool(q) {
        assert q in Slots(blkPtr, objSize, freeStack.Length);
        var j: nat :| j < freeStack.Length && q == Slot(blkPtr, objSize, j);
        SlotsApart(blkPtr, objSize, i, j);
      }
    }

    /** While a pool object is live, the free stack has room to take it back. */
    lemma RoomToFree(p: int)
      requires Valid() && p in live && IsInsidePool(p)
      ensures freeTop < freeStack.Length
    {
      var slots := Slots(blkPtr, objSize, freeStack.Length);
      SlotsExact(blkPtr, objSize, freeStack.Length);
      assert p in slots;
      NoDupFits(Free(), slots - {p});
    }

    /** Free slots and live pool objects add up to the capacity: nothing leaks and nothing is counted twice. */
    lemma SlotsAccounted()
      requires Valid()
      ensures freeTop + |set p | p in live && IsInsidePool(p)| == freeStack.Length
    {
      var used := set p | p in live && IsInsidePool(p);
      SlotsExact(blkPtr, objSize, freeStack.Length);
      ElementsCount(Free());
      assert Elements(Free()) !! used;
      assert |Elements(Free()) + used| == |Elements(Free())| + |used|;
    }

    /** Maps a block of memory (`base`, None when that failed) and puts every slot on the free stack. */
    constructor (size: nat, base: int, mapped: bool, objectSize: nat)
      requires objectSize > 0
      ensures Valid() && live == {} && fresh(freeStack)
      ensures objSize == AlignSize(objectSize, BLOCK_MASK)
      ensures blkPtr == base && blkSize == if mapped then AlignSize(size, CHUNK_MASK) else 0
      ensures freeStack.Length == Capacity(blkSize, objSize) && freeTop == freeStack.Length
    {
      var block := if mapped then AlignSize(size, CHUNK_MASK) else 0;
      var obj := AlignSize(objectSize, BLOCK_MASK);
      AlignedIsLeast(objectSize, BLOCK_MASK, 0);
      var stack := FillStack(base, obj, Capacity(block, obj));
      blkPtr, blkSize, objSize := base, block, obj;
      freeStack := stack;
      freeTop := stack.Length;
      live := {};
      new;
      assert Free() == freeStack[..];
      assert Elements(Free()) == Slots(base, obj, stack.Length);
    }

    /** Hands out a slot, or the result of `malloc` when the stack is empty. */
    method AllocObject(malloc: int) returns (p: int)
      requires Valid()
      requires !IsInsidePool(malloc) && forall q :: q in live ==> Apart(malloc, q, objSize)
      requires forall i :: 0 <= i < freeStack.Length ==> Apart(malloc, Slot(blkPtr, objSize, i), objSize)
      modifies this
      ensures Valid() && p !in old(live) && live == old(live) + {p}
      ensures forall q :: q in old(live) ==> Apart(p, q, objSize)
      ensures if old(freeTop) > 0 then IsInsidePool(p) else p == malloc
    {
      if freeTop > 0 {
        p := freeStack[freeTop - 1];
        forall q | q in live ensures p != q && Apart(p, q, objSize) {
          FreeSlotIsApart(p, q);
        }
        ghost var before := Free();
        assert p in Elements(before);
        assert before == before[..freeTop - 1] + [p];
        assert p in Slots(blkPtr, objSize, freeStack.Length);
        ghost var i: nat :| i < freeStack.Length && p == Slot(blkPtr, objSize, i);
        SlotIsInside(i);
        freeTop := freeTop - 1;
        assert Elements(Free()) == Elements(before) - {p};
      } else {
        p := malloc;
      }
      live := live + {p};
    }

    /** Gives an object back: to the stack if it is a slot of the pool, else to `free`. */
    method FreeObject(p: int)
      requires Valid() && p in live
      modifies this, freeStack
      ensures Valid() && live == old(live) - {p}
    {
      if IsInsidePool(p) {
        RoomToFree(p);
        ghost var before := Free();
        freeStack[freeTop] := p;
        freeTop := freeTop + 1;
        assert Free() == before + [p];
        assert p !in Elements(before);
        assert Elements(Free()) == Elements(before) + {p};
      }
      live := live - {p};
    }
  }
}
