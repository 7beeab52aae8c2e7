/** Which mutexes each operation takes, in which order, and why no set of threads can block itself.
    Connection locks are only ever tried, so nobody waits for them. */
module LockOrder {

  datatype Mutex = PollOut | PollIn | FcgiCompletion | Sched(k: nat) | Controller | IoCache | FcgiPool

  function Rank(m: Mutex): nat {
    match m
    case PollOut => 0
    case PollIn => 1
    case FcgiCompletion => 2
    case Sched(_) => 3
    case Controller => 4
    case IoCache => 5
    case FcgiPool => 6
  }

  /** `Try` takes the mutex if it is free and else skips the next `skip` actions. */
  datatype Action = Acquire(m: Mutex) | Release(m: Mutex) | Try(m: Mutex, skip: nat)

  /** The operations of the server that take mutexes. `n` schedulers exist; `waits` counts the times a
      worker goes to sleep on the condition before it picks a connection. */
  datatype Operation =
    | AddTask(k: nat)                      // also remove_task and reschedule of one scheduler
    | PickTask(k: nat, waits: nat, exits: bool)
    | RescheduleAll
    | PollInUpdate                         // sched_add, sched_remove, timer update, add_poll, cleanup
    | PollInTimer
    | PollInRecycle(victims: nat)
    | PollOutUpdate                        // timer update, add_poll
    | PollOutAdd
    | PollOutCleanup
    | PollOutTimer(victims: nat)
    | PollOutContinue(k: nat)
    | FcgiUpdate                           // sched_add, sched_remove, timer update, add_poll
    | FcgiTimer(k: nat, victims: nat)
    | BlockOutAdd(k: nat)
    | ControllerUpdate
    | CacheAccess(loads: bool)             // access_cache
    | PoolUpdate                           // alloc_connection, reclaim_connection

  function Section(m: Mutex): seq<Action> {
    [Acquire(m), Release(m)]
  }

  function Again(k: nat): seq<Action> {
    [Release(Sched(k)), Acquire(Sched(k))]
  }

  /** `cond.wait`: gives the scheduler's mutex back and takes it again; the controller is asked first
      whether the thread was created automatically. */
  function Waits(k: nat, n: nat): seq<Action> {
    if n == 0 then [] else Section(Controller) + Again(k) + Waits(k, n - 1)
  }

  /** One section of each of the schedulers below `n`. */
  function AllSchedulers(n: nat): seq<Action> {
    if n == 0 then [] else AllSchedulers(n - 1) + Section(Sched(n - 1))
  }

  function Repeat(a: seq<Action>, n: nat): seq<Action> {
    if n == 0 then [] else a + Repeat(a, n - 1)
  }

  /** `dispose_connection` asks every stage to forget the connection. */
  function DisposeOne(n: nat): seq<Action> {
    Section(FcgiCompletion) + Section(Controller) + AllSchedulers(n)
  }

  /** A section entered by `try_lock`. */
  function TrySection(m: Mutex, body: seq<Action>): seq<Action> {
    [Try(m, |body| + 1)] + body + [Release(m)]
  }

  function Locked(m: Mutex, body: seq<Action>): seq<Action> {
    [Acquire(m)] + body + [Release(m)]
  }

  function Path(op: Operation, n: nat): seq<Action> {
    match op
    case AddTask(k) => Section(Sched(k))
    case PickTask(k, waits, exits) =>
      Locked(Sched(k), Waits(k, waits) + if exits then Section(Controller) + Section(Controller) else [])
    case RescheduleAll => AllSchedulers(n)
    case PollInUpdate => Section(PollIn)
    case PollInTimer => TrySection(PollIn, [])
    case PollInRecycle(victims) => TrySection(PollIn, Repeat(DisposeOne(n), victims))
    case PollOutAdd => Locked(PollOut, Section(PollIn))
    case PollOutCleanup => Locked(PollOut, AllSchedulers(n))
    case PollOutTimer(victims) => TrySection(PollOut, Repeat(Section(PollIn), victims))
    case PollOutContinue(k) => Locked(PollOut, Section(Sched(k)) + AllSchedulers(n))
    case FcgiUpdate => Section(FcgiCompletion)
    case FcgiTimer(k, victims) => TrySection(FcgiCompletion, Repeat(Section(Sched(k)) + AllSchedulers(n), victims))
    case BlockOutAdd(k) => Section(PollIn) + Section(Sched(k))
    case ControllerUpdate => Section(Controller)
    case PollOutUpdate => Section(PollOut)
    case CacheAccess(loads) => Section(IoCache) + if loads then Section(IoCache) else []
    case PoolUpdate => Section(FcgiPool)
  }

  // ------------------------------------------------------------ threads

  /** `held` in the order of acquisition; `rest` is what the current operation still has to do. */
  datatype Thread = Thread(held: seq<Mutex>, rest: seq<Action>)

  datatype Step = Begin(t: nat, op: Operation) | Act(t: nat)

  ghost predicate Taken(s: seq<Thread>, m: Mutex) {
    exists u :: 0 <= u < |s| && m in s[u].held
  }

  ghost predicate Enabled(s: seq<Thread>, step: Step) {
    && step.t < |s|
    && match step
       case Begin(t, op) => s[t].rest == []
       case Act(t) => s[t].rest != [] && (s[t].rest[0].Acquire? ==> !Taken(s, s[t].rest[0].m))
                      && (s[t].rest[0].Release? ==> s[t].held != [])
                      && (s[t].rest[0].Try? ==> s[t].rest[0].skip < |s[t].rest|)
  }

  ghost function Acted(s: seq<Thread>, t: nat): Thread
    requires Enabled(s, Act(t))
  {
    var Thread(held, rest) := s[t];
    match rest[0]
    case Acquire(m) => Thread(held + [m], rest[1..])
    case Release(m) => Thread(held[..|held| - 1], rest[1..])
    case Try(m, skip) => if Taken(s, m) then Thread(held, rest[1 + skip..]) else Thread(held + [m], rest[1..])
  }

  /** `n` is the number of schedulers. */
  ghost function Apply(n: nat, s: seq<Thread>, step: Step): seq<Thread>
    requires Enabled(s, step)
  {
    match step
    case Begin(t, op) => s[t := s[t].(rest := Path(op, n))]
    case Act(t) => s[t := Acted(s, t)]
  }

  ghost predicate Runs(n: nat, s: seq<Thread>, steps: seq<Step>)
    decreases |steps|
  {
    steps == [] || (Enabled(s, steps[0]) && Runs(n, Apply(n, s, steps[0]), steps[1..]))
  }

  ghost function Final(n: nat, s: seq<Thread>, steps: seq<Step>): seq<Thread>
    requires Runs(n, s, steps)
    decreases |steps|
  {
    if steps == [] then s else Final(n, Apply(n, s, steps[0]), steps[1..])
  }

  /** Whether thread `t` waits for a mutex that thread `u` holds. */
  ghost predicate WaitsFor(s: seq<Thread>, t: nat, u: nat) {
    && t < |s| && u < |s|
    && s[t].rest != [] && s[t].rest[0].Acquire? && s[t].rest[0].m in s[u].held
  }

  ghost predicate StuckIn(s: seq<Thread>, d: set<nat>, t: nat) {
    exists u :: u in d && WaitsFor(s, t, u)
  }

  /** A set of threads, each of which waits for a thread of the set. */
  ghost predicate Deadlocked(s: seq<Thread>, d: set<nat>) {
    d != {} && forall t {:trigger StuckIn(s, d, t)} :: t in d ==> StuckIn(s, d, t)
  }

  // ------------------------------------------------------------ the order

  predicate Below(held: seq<Mutex>, m: Mutex) {
    forall i :: 0 <= i < |held| ==> Rank(held[i]) < Rank(m)
  }

  /** From `held`, the actions acquire upwards in rank only, release what was taken last, and end with
      exactly `after` held. */
  predicate Ordered(held: seq<Mutex>, rest: seq<Action>, after: seq<Mutex>)
    decreases |rest|
  {
    if rest == [] then held == after
    else match rest[0]
      case Acquire(m) => Below(held, m) && Ordered(held + [m], rest[1..], after)
      case Release(m) => held != [] && held[|held| - 1] == m && Ordered(held[..|held| - 1], rest[1..], after)
      case Try(m, skip) => skip < |rest| && Ordered(held + [m], rest[1..], after) && Ordered(held, rest[1 + skip..], after)
  }

  predicate NoTry(a: seq<Action>) {
    forall i :: 0 <= i < |a| ==> !a[i].Try?
  }

  lemma {:induction false} OrderedConcat(held: seq<Mutex>, a: seq<Action>, mid: seq<Mutex>, b: seq<Action>, after: seq<Mutex>)
    requires NoTry(a) && Ordered(held, a, mid) && Ordered(mid, b, after)
    ensures Ordered(held, a + b, after)
    decreases |a|
  {
    if a == [] {
      assert a + b == b;
    } else {
      assert (a + b)[1..] == a[1..] + b;
      match a[0]
      case Acquire(m) => OrderedConcat(held + [m], a[1..], mid, b, after);
      case Release(m) => OrderedConcat(held[..|held| - 1], a[1..], mid, b, after);
    }
  }

  lemma SectionOrdered(held: seq<Mutex>, m: Mutex)
    requires Below(held, m)
    ensures NoTry(Section(m)) && Ordered(held, Section(m), held)
  {
  }

  lemma {:induction false} AllSchedulersOrdered(held: seq<Mutex>, n: nat)
    requires Below(held, Sched(0))
    ensures NoTry(AllSchedulers(n)) && Ordered(held, AllSchedulers(n), held)
  {
    if n > 0 {
      AllSchedulersOrdered(held, n - 1);
      SectionOrdered(held, Sched(n - 1));
      OrderedConcat(held, AllSchedulers(n - 1), held, Section(Sched(n - 1)), held);
    }
  }

  lemma {:induction false} RepeatOrdered(held: seq<Mutex>, a: seq<Action>, n: nat)
    requires NoTry(a) && Ordered(held, a, held)
    ensures NoTry(Repeat(a, n)) && Ordered(held, Repeat(a, n), held)
  {
    if n > 0 {
      RepeatOrdered(held, a, n - 1);
      OrderedConcat(held, a, held, Repeat(a, n - 1), held);
    }
  }

  lemma {:induction false} WaitsOrdered(k: nat, n: nat)
    ensures NoTry(Waits(k, n)) && Ordered([Sched(k)], Waits(k, n), [Sched(k)])
  {
    if n > 0 {
      WaitsOrdered(k, n - 1);
      var held, again, rest := [Sched(k)], Again(k), Waits(k, n - 1);
      SectionOrdered(held, Controller);
      AgainOrdered(k);
      OrderedConcat(held, Section(Controller), held, again, held);
      OrderedConcat(held, Section(Controller) + again, held, rest, held);
    }
  }

  lemma AgainOrdered(k: nat)
    ensures NoTry(Again(k)) && Ordered([Sched(k)], Again(k), [Sched(k)])
  {
    var held, again := [Sched(k)], Again(k);
    assert again[1..] == [Acquire(Sched(k))] && again[1..][1..] == [];
    assert held[..0] == [] && [] + [Sched(k)] == held;
    assert Ordered([], again[1..], held);
  }

  lemma DisposeOrdered(n: nat)
    ensures NoTry(DisposeOne(n)) && Ordered([PollIn], DisposeOne(n), [PollIn])
  {
    var held := [PollIn];
    SectionOrdered(held, FcgiCompletion);
    SectionOrdered(held, Controller);
    AllSchedulersOrdered(held, n);
    OrderedConcat(held, Section(FcgiCompletion), held, Section(Controller), held);
    OrderedConcat(held, Section(FcgiCompletion) + Section(Controller), held, AllSchedulers(n), held);
  }

  lemma BodyReleased(m: Mutex, body: seq<Action>)
    requires NoTry(body) && Ordered([m], body, [m])
    ensures Ordered([m], body + [Release(m)], [])
  {
    assert [Release(m)][1..] == [] && [m][..0] == [];
    assert Ordered([m], [Release(m)], []);
    OrderedConcat([m], body, [m], [Release(m)], []);
  }

  lemma LockedOrdered(m: Mutex, body: seq<Action>)
    requires NoTry(body) && Ordered([m], body, [m])
    ensures Ordered([], Locked(m, body), [])
  {
    BodyReleased(m, body);
    var a := Locked(m, body);
    assert a[1..] == body + [Release(m)] && [] + [m] == [m];
  }

  lemma TrySectionOrdered(m: Mutex, body: seq<Action>)
    requires NoTry(body) && Ordered([m], body, [m])
    ensures Ordered([], TrySection(m, body), [])
  {
    BodyReleased(m, body);
    var a := TrySection(m, body);
    assert a[1..] == body + [Release(m)] && [] + [m] == [m];
    assert a[1 + (|body| + 1)..] == [];
  }

  /** Every operation respects the order PollOut, PollIn, FcgiCompletion, schedulers, controller, file cache, FastCGI pool, and
      leaves with nothing held. */
  lemma PathsOrdered(op: Operation, n: nat)
    ensures Ordered([], Path(op, n), [])
  {
    match op
    case AddTask(k) => SectionOrdered([], Sched(k));
    case PickTask(k, waits, exits) =>
      var held := [Sched(k)];
      WaitsOrdered(k, waits);
      SectionOrdered(held, Controller);
      var tail := if exits then Section(Controller) + Section(Controller) else [];
      if exits {
        OrderedConcat(held, Section(Controller), held, Section(Controller), held);
      }
      OrderedConcat(held, Waits(k, waits), held, tail, held);
      LockedOrdered(Sched(k), Waits(k, waits) + tail);
    case RescheduleAll => AllSchedulersOrdered([], n);
    case PollInUpdate => SectionOrdered([], PollIn);
    case PollInTimer => TrySectionOrdered(PollIn, []);
    case PollInRecycle(victims) =>
      DisposeOrdered(n);
      RepeatOrdered([PollIn], DisposeOne(n), victims);
      TrySectionOrdered(PollIn, Repeat(DisposeOne(n), victims));
    case PollOutAdd =>
      SectionOrdered([PollOut], PollIn);
      LockedOrdered(PollOut, Section(PollIn));
    case PollOutCleanup =>
      AllSchedulersOrdered([PollOut], n);
      LockedOrdered(PollOut, AllSchedulers(n));
    case PollOutTimer(victims) =>
      SectionOrdered([PollOut], PollIn);
      RepeatOrdered([PollOut], Section(PollIn), victims);
      TrySectionOrdered(PollOut, Repeat(Section(PollIn), victims));
    case PollOutContinue(k) =>
      ContinueOrdered(PollOut, k, n);
      LockedOrdered(PollOut, Section(Sched(k)) + AllSchedulers(n));
    case FcgiUpdate => SectionOrdered([], FcgiCompletion);
    case FcgiTimer(k, victims) =>
      ContinueOrdered(FcgiCompletion, k, n);
      RepeatOrdered([FcgiCompletion], Section(Sched(k)) + AllSchedulers(n), victims);
      TrySectionOrdered(FcgiCompletion, Repeat(Section(Sched(k)) + AllSchedulers(n), victims));
    case BlockOutAdd(k) =>
      SectionOrdered([], PollIn);
      SectionOrdered([], Sched(k));
      OrderedConcat([], Section(PollIn), [], Section(Sched(k)), []);
    case ControllerUpdate => SectionOrdered([], Controller);
    case PollOutUpdate => SectionOrdered([], PollOut);
    case CacheAccess(loads) =>
      SectionOrdered([], IoCache);
      OrderedConcat([], Section(IoCache), [], if loads then Section(IoCache) else [], []);
    case PoolUpdate => SectionOrdered([], FcgiPool);
  }

  lemma ContinueOrdered(m: Mutex, k: nat, n: nat)
    requires Rank(m) < 3
    ensures NoTry(Section(Sched(k)) + AllSchedulers(n)) && Ordered([m], Section(Sched(k)) + AllSchedulers(n), [m])
  {
    SectionOrdered([m], Sched(k));
    AllSchedulersOrdered([m], n);
    OrderedConcat([m], Section(Sched(k)), [m], AllSchedulers(n), [m]);
  }

  // ------------------------------------------------------------ every run

  ghost predicate Inv(s: seq<Thread>) {
    && (forall t :: 0 <= t < |s| ==> Ordered(s[t].held, s[t].rest, []))
    && (forall t, u, m :: 0 <= t < |s| && 0 <= u < |s| && m in s[t].held && m in s[u].held ==> t == u)
  }

  lemma StepInv(n: nat, s: seq<Thread>, step: Step)
    requires Inv(s) && Enabled(s, step)
    ensures Inv(Apply(n, s, step))
  {
    var s' := Apply(n, s, step);
    match step
    case Begin(t, op) =>
      PathsOrdered(op, n);
    case Act(t) =>
      assert Ordered(s[t].held, s[t].rest, []);
      assert Ordered(s'[t].held, s'[t].rest, []);
      forall u, v, m | 0 <= u < |s'| && 0 <= v < |s'| && m in s'[u].held && m in s'[v].held ensures u == v {
        assert m in s'[t].held ==> m in s[t].held || !Taken(s, m);
      }
  }

  lemma {:induction false} RunInv(n: nat, s: seq<Thread>, steps: seq<Step>)
    requires Inv(s) && Runs(n, s, steps)
    ensures Inv(Final(n, s, steps))
    decreases |steps|
  {
    if steps != [] {
      StepInv(n, s, steps[0]);
      RunInv(n, Apply(n, s, steps[0]), steps[1..]);
    }
  }

  /** A thread that waits for a mutex holds only mutexes of lower rank. */
  lemma WaitsUpwards(s: seq<Thread>, t: nat, m: Mutex)
    requires Inv(s) && t < |s| && s[t].rest != [] && s[t].rest[0].Acquire? && m in s[t].held
    ensures Rank(m) < Rank(s[t].rest[0].m)
  {
  }

  /** Following who waits for whom climbs in rank, so it cannot stay inside a set of waiting threads. */
  lemma {:induction false} ClimbLeaves(s: seq<Thread>, d: set<nat>, t: nat)
    requires Inv(s) && t in d && t < |s| && s[t].rest != [] && s[t].rest[0].Acquire?
    ensures !Deadlocked(s, d)
    decreases 6 - Rank(s[t].rest[0].m)
  {
    if Deadlocked(s, d) {
      assert StuckIn(s, d, t);
      var u :| u in d && WaitsFor(s, t, u);
      assert StuckIn(s, d, u);
      WaitsUpwards(s, u, s[t].rest[0].m);
      ClimbLeaves(s, d, u);
    }
  }

  ghost function Start(threads: nat): seq<Thread> {
    seq(threads, _ => Thread([], []))
  }

  ghost predicate Reachable(n: nat, s: seq<Thread>) {
    exists threads: nat, steps :: Runs(n, Start(threads), steps) && Final(n, Start(threads), steps) == s
  }

  lemma ReachableInv(n: nat, s: seq<Thread>)
    requires Reachable(n, s)
    ensures Inv(s)
  {
    var threads: nat, steps :| Runs(n, Start(threads), steps) && Final(n, Start(threads), steps) == s;
    var s0 := Start(threads);
    assert forall t :: 0 <= t < |s0| ==> Ordered(s0[t].held, s0[t].rest, []);
    RunInv(n, s0, steps);
  }

  /** No run of the server's operations, by any number of threads, reaches a deadlock. */
  lemma NoDeadlock(n: nat, s: seq<Thread>, d: set<nat>)
    requires Reachable(n, s)
    ensures !Deadlocked(s, d)
  {
    ReachableInv(n, s);
    if Deadlocked(s, d) {
      var t :| t in d;
      assert StuckIn(s, d, t);
      ClimbLeaves(s, d, t);
    }
  }

  /** As long as some operation is under way, some thread can take its next action. */
  lemma {:induction false} SomeThreadCanAct(n: nat, s: seq<Thread>, t: nat) returns (u: nat)
    requires Reachable(n, s) && t < |s| && s[t].rest != []
    ensures Enabled(s, Act(u))
    decreases if s[t].rest[0].Acquire? then 6 - Rank(s[t].rest[0].m) else 0
  {
    ReachableInv(n, s);
    assert Ordered(s[t].held, s[t].rest, []);
    if s[t].rest[0].Acquire? && Taken(s, s[t].rest[0].m) {
      u :| 0 <= u < |s| && s[t].rest[0].m in s[u].held;
      assert Ordered(s[u].held, s[u].rest, []);
      assert s[u].rest != [];
      if s[u].rest[0].Acquire? {
        WaitsUpwards(s, u, s[t].rest[0].m);
        u := SomeThreadCanAct(n, s, u);
      }
    } else {
      u := t;
    }
  }
}
