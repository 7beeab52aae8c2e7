/** The abstract value of a connection queue: a sequence without duplicates, oldest task first.
    It specifies the linked `QueueScheduler` and is the queue of the pipeline protocol. */
module TaskQueue {

  /** A connection, named by its file descriptor. */
  type Conn = nat

  ghost predicate NoDup(q: seq<int>) {
    forall i, j :: 0 <= i < j < |q| ==> q[i] != q[j]
  }

  lemma ConsKeepsNoDup(x: int, q: seq<int>)
    requires NoDup(q) && x !in q
    ensures NoDup([x] + q)
  {
  }

  /** The queue without task `c`; the other tasks keep their order. */
  function Without(q: seq<Conn>, c: Conn): (r: seq<Conn>)
    requires NoDup(q)
    ensures NoDup(r)
    ensures forall x :: x in r <==> x in q && x != c
    ensures |r| == if c in q then |q| - 1 else |q|
  {
    if q == [] then []
    else if q[0] == c then q[1..]
    else
      var rest := Without(q[1..], c);
      assert q[0] !in q[1..] && forall x :: x in q <==> x == q[0] || x in q[1..];
      ConsKeepsNoDup(q[0], rest);
      [q[0]] + rest
  }

  /** A new task goes to the back; a task that is already queued moves to the front. */
  function Added(q: seq<Conn>, c: Conn): (r: seq<Conn>)
    requires NoDup(q)
    ensures NoDup(r)
    ensures forall x :: x in r <==> x in q || x == c
  {
    if c in q then
      ConsKeepsNoDup(c, Without(q, c));
      [c] + Without(q, c)
    else
      q + [c]
  }

  lemma {:induction false} WithoutAt(q: seq<Conn>, i: nat)
    requires NoDup(q) && i < |q|
    ensures Without(q, q[i]) == q[..i] + q[i + 1..]
  {
    if i > 0 {
      WithoutAt(q[1..], i - 1);
      assert q[1..][i - 1] == q[i];
      assert q[..i] == [q[0]] + q[1..][..i - 1];
      assert q[i + 1..] == q[1..][i..];
    }
  }

  lemma {:induction false} WithoutAbsent(q: seq<Conn>, c: Conn)
    requires NoDup(q) && c !in q
    ensures Without(q, c) == q
  {
    if q != [] {
      WithoutAbsent(q[1..], c);
    }
  }

  /** Adding puts the task at the front if it was queued and at the back if it was not; the others keep their order. */
  lemma AddedPlaces(q: seq<Conn>, c: Conn)
    requires NoDup(q)
    ensures var r := Added(q, c);
      && r != [] && r[if c in q then 0 else |r| - 1] == c && |r| == (if c in q then |q| else |q| + 1)
      && Without(r, c) == Without(q, c)
  {
    if c in q {
      assert Without([c] + Without(q, c), c) == Without(q, c);
    } else {
      WithoutAt(q + [c], |q|);
      WithoutAbsent(q, c);
      assert (q + [c])[..|q|] + (q + [c])[|q| + 1..] == q;
    }
  }
}
