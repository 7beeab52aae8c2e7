/** What the pipeline protocol guarantees over every run. */
module ProtocolTheorems {
  import opened TaskQueue
  import opened Protocol
  import opened ProtocolSafety

  ghost predicate Reachable(g: Config, s: State) {
    exists steps :: Runs(g, Initial(g), steps) && Final(g, Initial(g), steps) == s
  }

  lemma ReachableInv(g: Config, s: State)
    requires Reachable(g, s)
    ensures Inv(g, s)
  {
    var steps :| Runs(g, Initial(g), steps) && Final(g, Initial(g), steps) == s;
    InitialInv(g);
    RunInv(g, Initial(g), steps);
  }

  /** A worker that sleeps without having been notified has nothing to pick: each queued connection
      is locked, retired, or its scheduler is still owed a reschedule. */
  lemma NoLostWakeup(g: Config, s: State, w: nat, k: nat, c: Conn)
    requires Reachable(g, s) && w < |s.pc| && s.pc[w].Asleep? && s.pc[w].k == k
    requires k < |s.lists| && c in s.lists[k]
    ensures Locking(g, k)
    ensures c in s.locked || c in s.expired || Owed(s, k)
  {
    ReachableInv(g, s);
    assert WakefulAt(g, s, w);
  }

  /** Each taken connection lock has one holder, a thread or the write-back stage it is parked in,
      and a free one has none. */
  lemma LockBaton(g: Config, s: State, c: Conn)
    requires Reachable(g, s)
    ensures c in s.locked ==> exists h :: Holds(g, s, h, c) && forall i :: Holds(g, s, i, c) ==> i == h
    ensures c !in s.locked ==> forall i :: !Holds(g, s, i, c)
  {
    ReachableInv(g, s);
    if c in s.locked {
      var h :| Sole(g, s, c, h);
      assert Holds(g, s, h, c);
    }
  }

  /** A lock is released only by the thread that holds it. */
  lemma OnlyHolderUnlocks(g: Config, s: State, step: Step, c: Conn)
    requires Reachable(g, s) && Enabled(g, s, step)
    requires c in s.locked && c !in Apply(g, s, step).locked
    ensures step.Advance? && Sole(g, s, c, Thread(step.t))
  {
    ReachableInv(g, s);
    LockedMatchesTransfer(g, s, step, c);
    HeldIsLocked(g, s, Thread(step.t), c);
  }

  /** A handler stage tells the worker loop to keep the lock exactly when the destroyed response has
      parked the connection in write-back; otherwise the worker still holds it. */
  lemma KeepExactlyWhenParked(g: Config, s: State, t: nat, target: Target)
    requires Reachable(g, s) && Enabled(g, s, Destruct(t, target))
    ensures var s' := Apply(g, s, Destruct(t, target));
      var c := s.pc[t].c;
      && s'.pc[t] == Returned(c, s.pc[t].code)
      && (s.pc[t].code == Keep <==> Sole(g, s', c, if target.ToQueue? then Queue(target.k) else Poller))
      && (s.pc[t].code == Release <==> Sole(g, s', c, Thread(t)))
  {
    ReachableInv(g, s);
    var step := Destruct(t, target);
    StepInv(g, s, step);
    var s' := Apply(g, s, step);
    var c := s.pc[t].c;
    assert PcOk(g, s, t);
    StepHandover(g, s, step, c, Thread(t));
    var parked := if target.ToQueue? then Queue(target.k) else Poller;
    StepHandover(g, s, step, c, parked);
    assert Holds(g, s, Thread(t), c);
    if s.pc[t].code == Keep {
      HeldIsLocked(g, s', parked, c);
    } else {
      HeldIsLocked(g, s', Thread(t), c);
    }
  }

  /** `response_code`: the lock is to be kept exactly when the response is still open and has output to be written. */
  lemma KeepExactlyWhenOpenAndPending(g: Config, s: State, t: nat, closed: bool)
    requires Enabled(g, s, Evaluate(t, closed))
    ensures var s', c := Apply(g, s, Evaluate(t, closed)), s.pc[t].c;
      && s'.pc == s.pc[t := Returning(c, s'.pc[t].code, closed)] && s' == s.(pc := s'.pc)
      && (s'.pc[t].code == Keep <==> !closed && c in s.pending)
  {
  }

  /** Output that was produced and not drained since keeps the lock of an open response; drained output releases it. */
  lemma OutputDecides(g: Config, s: State, t: nat, step: Step, closed: bool)
    requires step == Produce(t) || step == Drain(t)
    requires Enabled(g, s, step) && Enabled(g, Apply(g, s, step), Evaluate(t, closed))
    ensures Apply(g, Apply(g, s, step), Evaluate(t, closed)).pc[t] == Returning(s.pc[t].c, if step.Produce? && !closed then Keep else Release, closed)
  {
    KeepExactlyWhenOpenAndPending(g, Apply(g, s, step), t, closed);
  }

  /** When a response is destroyed, the connection is handed to write-back exactly when the response is open and has
      output to be written. A closed or drained one is scheduled nowhere, and the worker is still its sole holder. */
  lemma ParkedExactlyWhenOpenAndPending(g: Config, s: State, t: nat, target: Target)
    requires Reachable(g, s) && Enabled(g, s, Destruct(t, target))
    ensures var s', c, open := Apply(g, s, Destruct(t, target)), s.pc[t].c, !s.pc[t].closed && s.pc[t].c in s.pending;
      && (open <==> Sole(g, s', c, if target.ToQueue? then Queue(target.k) else Poller))
      && (!open <==> Sole(g, s', c, Thread(t)))
      && (!open ==> s'.lists == s.lists && s'.polled == s.polled && c !in s'.polled)
      && (!open ==> forall k :: 0 <= k < |s'.lists| && g.suppress[k] ==> c !in s'.lists[k])
      && s'.pc[t] == Returned(c, if open then Keep else Release)
  {
    ReachableInv(g, s);
    assert PcOk(g, s, t);
    KeepExactlyWhenParked(g, s, t, target);
    var s', c := Apply(g, s, Destruct(t, target)), s.pc[t].c;
    if s.pc[t].closed || c !in s.pending {
      assert !Holds(g, s', Poller, c);
      forall k | 0 <= k < |s'.lists| && g.suppress[k] ensures c !in s'.lists[k] {
        assert !Holds(g, s', Queue(k), c);
      }
    }
  }

  lemma StepReachable(g: Config, s: State, step: Step)
    requires Reachable(g, s) && Enabled(g, s, step)
    ensures Reachable(g, Apply(g, s, step))
  {
    var steps :| Runs(g, Initial(g), steps) && Final(g, Initial(g), steps) == s;
    assert [step][1..] == [];
    RunsConcat(g, Initial(g), steps, [step]);
  }

  /** From the evaluation of a response to the worker loop: an open response with pending output stays locked and is
      parked; any other is unlocked, and the worker goes on to wake the other stages. */
  lemma ResponseOutcome(g: Config, s: State, t: nat, closed: bool, target: Target, s1: State, s2: State, s3: State)
    requires Reachable(g, s) && Enabled(g, s, Evaluate(t, closed)) && s1 == Apply(g, s, Evaluate(t, closed))
    requires Enabled(g, s1, Destruct(t, target)) && s2 == Apply(g, s1, Destruct(t, target))
    requires Enabled(g, s2, Advance(t)) && s3 == Apply(g, s2, Advance(t))
    ensures var c := s.pc[t].c;
      if !closed && c in s.pending
      then c in s3.locked && s3.pc[t] == Idle && Holds(g, s3, if target.ToQueue? then Queue(target.k) else Poller, c)
      else c !in s3.locked && s3.pc[t] == Owe(0) && s3.lists == s.lists && s3.polled == s.polled
  {
    KeepExactlyWhenOpenAndPending(g, s, t, closed);
    StepReachable(g, s, Evaluate(t, closed));
    StepReachable(g, s1, Destruct(t, target));
    ParkedExactlyWhenOpenAndPending(g, s1, t, target);
    ReachableInv(g, s2);
    var c := s.pc[t].c;
    if !closed && c in s.pending {
      HeldIsLocked(g, s2, if target.ToQueue? then Queue(target.k) else Poller, c);
    }
  }

  /** A connection that has hung up is retired and then unlocked, and nobody is woken for it. */
  lemma HangUpRetires(g: Config, s: State, t: nat, s1: State, s2: State)
    requires Reachable(g, s) && t < |s.pc| && s.pc[t].Hup? && s.pc[t].c !in s.expired
    requires Enabled(g, s, Advance(t)) && s1 == Apply(g, s, Advance(t))
    requires Enabled(g, s1, Advance(t)) && s2 == Apply(g, s1, Advance(t))
    ensures var c := s.pc[t].c;
      && c in s1.expired && c in s1.locked && Sole(g, s1, c, Thread(t))
      && c in s2.expired && c !in s2.locked && s2.pc == s.pc[t := Idle] && s2.lists == s.lists && Unheld(g, s2, c)
  {
    StepReachable(g, s, Advance(t));
    StepReachable(g, s1, Advance(t));
    ReachableInv(g, s1);
    ReachableInv(g, s2);
    HeldIsLocked(g, s1, Thread(t), s.pc[t].c);
  }

  /** A worker takes the oldest connection of a queue that is not locked on the way; of a locking queue it takes the
      first that is free, and those before it are locked, retired or about to be rescheduled. */
  lemma PickedInOrder(g: Config, s: State, t: nat) returns (i: nat)
    requires Reachable(g, s) && Enabled(g, s, Advance(t)) && (s.pc[t].Check? || s.pc[t].Scan?)
    requires Apply(g, s, Advance(t)).pc[t].Hold?
    ensures var s', k := Apply(g, s, Advance(t)), s.pc[t].k;
      && k < |s.lists| && i < |s.lists[k]| && s'.pc[t].c == s.lists[k][i]
      && s' == s.(locked := s.locked + {s.lists[k][i]}, lists := s'.lists, pc := s'.pc)
      && s'.lists == s.lists[k := s.lists[k][..i] + s.lists[k][i + 1..]]
      && (g.suppress[k] ==> i == 0) && (!g.suppress[k] ==> s.lists[k][i] !in s.locked)
      && forall j :: 0 <= j < i ==> Covered(s, k, s.lists[k][j])
  {
    ReachableInv(g, s);
    assert PcOk(g, s, t) && WakefulAt(g, s, t);
    var k := s.pc[t].k;
    if s.pc[t].Check? {
      i := 0;
      var c := s.lists[k][0];
      assert Holds(g, s, Queue(k), c);
      HeldIsLocked(g, s, Queue(k), c);
      assert s.locked + {c} == s.locked;
      assert s.lists[k][..0] + s.lists[k][1..] == s.lists[k][1..];
    } else {
      i := s.pc[t].i;
      WithoutAt(s.lists[k], i);
    }
  }

  /** Queues, expired connections, the write poller and the threads that hold a connection refer to connections that have
      not been destroyed. */
  lemma NoUseAfterDispose(g: Config, s: State, c: Conn)
    requires Reachable(g, s) && c !in s.live
    ensures c !in s.expired && c !in s.polled
    ensures forall k :: 0 <= k < |s.lists| ==> c !in s.lists[k]
    ensures forall t :: 0 <= t < |s.pc| ==> !PcHolds(s.pc[t], c)
  {
    ReachableInv(g, s);
    if c in s.polled {
      HeldIsLocked(g, s, Poller, c);
    }
    forall t | 0 <= t < |s.pc| ensures !PcHolds(s.pc[t], c) {
      if PcHolds(s.pc[t], c) {
        HeldIsLocked(g, s, Thread(t), c);
      }
    }
  }

  // ------------------------------------------------------------ the owed reschedule can be delivered

  ghost predicate AllAdvance(steps: seq<Step>) {
    forall i :: 0 <= i < |steps| ==> steps[i].Advance?
  }

  /** Steps that the thread inside mutex `k` still has to take before it leaves. */
  function ToLeave(s: State, u: nat): nat
    requires u < |s.pc|
  {
    match s.pc[u]
    case Check(k) => if k < |s.lists| then |s.lists[k]| + 2 else 0
    case Scan(k, i) => if k < |s.lists| && i <= |s.lists[k]| then |s.lists[k]| - i + 1 else 0
    case _ => 0
  }

  /** Locks are only taken, and a queued connection leaves its queue only by being locked. */
  ghost predicate OnlyPicks(s: State, s': State) {
    && s.locked <= s'.locked && s'.expired == s.expired && |s'.pc| == |s.pc| && |s'.lists| == |s.lists|
    && forall k, c :: 0 <= k < |s.lists| && c in s.lists[k] && c !in s'.locked ==> c in s'.lists[k]
  }

  /** A thread inside a scheduler's mutex is never blocked, and moves towards leaving it. */
  lemma ScannerMoves(g: Config, s: State, u: nat, k: nat)
    requires Inv(g, s) && u < |s.pc| && InMutex(s.pc[u], k)
    ensures Enabled(g, s, Advance(u))
    ensures forall v :: 0 <= v < |s.pc| && v != u ==> Advanced(g, s, u).pc[v] == s.pc[v]
    ensures InMutex(Advanced(g, s, u).pc[u], k) ==> ToLeave(Advanced(g, s, u), u) < ToLeave(s, u)
    ensures OnlyPicks(s, Advanced(g, s, u))
  {
    assert PcOk(g, s, u);
    if s.pc[u].Check? && s.lists[k] != [] && g.suppress[k] {
      HeldIsLocked(g, s, Queue(k), s.lists[k][0]);
    }
  }

  /** While a reschedule is owed to its scheduler, a sleeping worker is woken by steps that only
      continue the program of threads that are not asleep. */
  lemma {:induction false} OwedWakeupArrives(g: Config, s: State, w: nat, t: nat, k: nat)
    returns (steps: seq<Step>, s': State)
    requires Inv(g, s) && w < |s.pc| && s.pc[w].Asleep? && s.pc[w].k == k && Locking(g, k)
    requires t < |s.pc| && s.pc[t].Owe? && s.pc[t].next <= k
    ensures AllAdvance(steps) && Runs(g, s, steps) && s' == Final(g, s, steps)
    ensures Inv(g, s') && OnlyPicks(s, s')
    ensures s'.pc[w] == Woken(k, s.pc[w].rescan)
    decreases k - s.pc[t].next, if MutexFree(s, s.pc[t].next) then 0 else 1 + ToLeave(s, Inside(s, s.pc[t].next))
  {
    var next := s.pc[t].next;
    var u := if Locking(g, next) && !MutexFree(s, next) then Inside(s, next) else t;
    if u != t {
      ScannerMoves(g, s, u, next);
      InsideIsUnique(g, s, u, next);
    }
    StepInv(g, s, Advance(u));
    if u == t && next == k {
      steps, s' := [Advance(t)], Advanced(g, s, t);
      assert steps[1..] == [];
    } else {
      var rest;
      rest, s' := OwedWakeupArrives(g, Advanced(g, s, u), w, t, k);
      steps := [Advance(u)] + rest;
      assert steps[1..] == rest;
    }
  }

  /** Scanning with nobody interfering: the worker leaves with the first connection it can lock. */
  lemma {:induction false} ScanPicks(g: Config, s: State, w: nat, k: nat, j: nat) returns (steps: seq<Step>, s': State)
    requires Inv(g, s) && w < |s.pc| && s.pc[w].Scan? && s.pc[w].k == k && k < |s.lists|
    requires s.pc[w].i <= j < |s.lists[k]| && s.lists[k][j] !in s.locked
    ensures AllAdvance(steps) && Runs(g, s, steps) && s' == Final(g, s, steps)
    ensures |s'.pc| == |s.pc| && s'.pc[w].Hold?
    decreases j - s.pc[w].i
  {
    ScannerMoves(g, s, w, k);
    StepInv(g, s, Advance(w));
    s' := Advanced(g, s, w);
    steps := [Advance(w)];
    assert steps[1..] == [];
    if !s'.pc[w].Hold? {
      var rest;
      rest, s' := ScanPicks(g, s', w, k, j);
      steps := [Advance(w)] + rest;
      assert steps[1..] == rest;
    }
  }

  /** A notified worker gets the mutex, scans, and leaves with a connection, unless `c` is taken first. */
  lemma {:induction false} WokenPicks(g: Config, s: State, w: nat, k: nat, c: Conn) returns (steps: seq<Step>, s': State)
    requires Inv(g, s) && w < |s.pc| && Locking(g, k) && c in s.lists[k]
    requires (s.pc[w].Woken? || s.pc[w].Check?) && s.pc[w].k == k
    ensures AllAdvance(steps) && Runs(g, s, steps) && s' == Final(g, s, steps)
    ensures |s'.pc| == |s.pc| && (s'.pc[w].Hold? || c in s'.locked)
    decreases s.pc[w].Woken?, if MutexFree(s, k) then 0 else 1 + ToLeave(s, Inside(s, k))
  {
    if c in s.locked {
      steps, s' := [], s;
      return;
    }
    var u := if s.pc[w].Woken? && !MutexFree(s, k) then Inside(s, k) else w;
    if u != w {
      ScannerMoves(g, s, u, k);
      InsideIsUnique(g, s, u, k);
    }
    StepInv(g, s, Advance(u));
    var s1 := Advanced(g, s, u);
    var rest;
    if s1.pc[w].Scan? {
      var j :| 0 <= j < |s1.lists[k]| && s1.lists[k][j] == c;
      rest, s' := ScanPicks(g, s1, w, k, j);
    } else if c in s1.locked {
      rest, s' := [], s1;
    } else {
      rest, s' := WokenPicks(g, s1, w, k, c);
    }
    steps := [Advance(u)] + rest;
    assert steps[1..] == rest;
  }

  lemma {:induction false} RunsConcat(g: Config, s: State, a: seq<Step>, b: seq<Step>)
    requires Runs(g, s, a) && Runs(g, Final(g, s, a), b)
    ensures Runs(g, s, a + b) && Final(g, s, a + b) == Final(g, Final(g, s, a), b)
    decreases |a|
  {
    if a == [] {
      assert a + b == b;
    } else {
      RunsConcat(g, Apply(g, s, a[0]), a[1..], b);
      assert (a + b)[1..] == a[1..] + b;
    }
  }

  /** A queued connection that is neither locked nor retired is never stranded: from every reachable
      state, a worker asleep on its queue can be brought to hold a connection (unless another thread
      takes `c` first) by steps that only continue the programs of running threads. */
  lemma RunnableConnectionIsServed(g: Config, s: State, w: nat, k: nat, c: Conn) returns (steps: seq<Step>, s': State)
    requires Reachable(g, s) && w < |s.pc| && s.pc[w].Asleep? && s.pc[w].k == k
    requires k < |s.lists| && c in s.lists[k] && c !in s.locked && c !in s.expired
    ensures AllAdvance(steps) && Runs(g, s, steps) && s' == Final(g, s, steps)
    ensures |s'.pc| == |s.pc| && (s'.pc[w].Hold? || c in s'.locked)
  {
    NoLostWakeup(g, s, w, k, c);
    ReachableInv(g, s);
    var t :| 0 <= t < |s.pc| && s.pc[t].Owe? && s.pc[t].next <= k;
    var wake, s1 := OwedWakeupArrives(g, s, w, t, k);
    if c in s1.locked {
      steps, s' := wake, s1;
    } else {
      var pick;
      pick, s' := WokenPicks(g, s1, w, k, c);
      RunsConcat(g, s, wake, pick);
      steps := wake + pick;
    }
  }

  ghost function Inside(s: State, k: nat): (u: nat)
    requires !MutexFree(s, k)
    ensures u < |s.pc| && InMutex(s.pc[u], k)
  {
    var u :| 0 <= u < |s.pc| && InMutex(s.pc[u], k); u
  }

  lemma InsideIsUnique(g: Config, s: State, u: nat, k: nat)
    requires Inv(g, s) && u < |s.pc| && InMutex(s.pc[u], k) && Enabled(g, s, Advance(u))
    ensures var s' := Advanced(g, s, u); !MutexFree(s', k) ==> Inside(s', k) == u
  {
  }

  // ------------------------------------------------------------ why connections are added while locked

  /** Adding a connection to a scheduler leaves no sleeping worker behind exactly when the connection
      is covered, the queue was empty (so that everybody is notified), or nobody sleeps. */
  lemma AddKeepsWakeupsExactlyWhenCovered(g: Config, s: State, k: nat, c: Conn)
    requires Inv(g, s) && Locking(g, k) && MutexFree(s, k)
    ensures var s' := Enqueue(g, s, k, c);
      (forall w, d :: 0 <= w < |s'.pc| && s'.pc[w].Asleep? && s'.pc[w].k == k && d in s'.lists[k] ==> Covered(s', k, d))
      <==> (Covered(s, k, c) || s.lists[k] == [] || forall w :: 0 <= w < |s.pc| ==> !(s.pc[w].Asleep? && s.pc[w].k == k))
  {
    var s' := Enqueue(g, s, k, c);
    forall d ensures Covered(s, k, d) <==> Covered(s', k, d) {
      OwedSameAfterEnqueue(g, s, k, c);
    }
    if w :| 0 <= w < |s.pc| && s.pc[w].Asleep? && s.pc[w].k == k && s.lists[k] != [] && !Covered(s, k, c) {
      assert s'.pc[w].Asleep? && s'.pc[w].k == k && c in s'.lists[k];
    } else {
      forall w, d | 0 <= w < |s'.pc| && s'.pc[w].Asleep? && s'.pc[w].k == k && d in s'.lists[k]
        ensures Covered(s', k, d)
      {
        assert s.pc[w] == s'.pc[w] && WakefulAt(g, s, w);
      }
    }
  }

  lemma OwedSameAfterEnqueue(g: Config, s: State, k: nat, c: Conn)
    requires Inv(g, s) && k < |s.lists|
    ensures Owed(s, k) <==> Owed(Enqueue(g, s, k, c), k)
  {
  }
}
