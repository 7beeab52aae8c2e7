/** The connection-lock protocol of the pipeline: stage workers, read pollers and write-back
    threads over shared queues. A run is a sequence of labelled steps; a step is one
    lock-protected section or one `try_lock`, so the scan of a queue is not atomic.
    Continuation-free runs only. */
module Protocol {
  import opened TaskQueue

  /** What a thread runs: the read poller, the worker loop of the stage that owns scheduler `k`,
      or the write poller. */
  datatype Role = PollIn | Stage(k: nat) | PollOut

  /** `suppress[k]` tells that scheduler `k` does not lock what it picks (the write-back queue).
      Schedulers are numbered in the order in which `reschedule_all` visits their stages. */
  datatype Config = Config(suppress: seq<bool>, roles: seq<Role>)

  /** The value a stage returns to the worker loop. */
  datatype Code = Release | Keep

  datatype PC =
    | Idle                                          // at the top of its loop
    | Check(k: nat)                                 // in the scheduler's mutex, testing for an empty queue
    | Scan(k: nat, i: nat)                          // in the mutex, about to try_lock entry i
    | Asleep(k: nat, rescan: bool)                  // waiting on the condition, not notified
    | Woken(k: nat, rescan: bool)                   // notified, mutex not yet taken back
    | TimedOut(k: nat)                              // idle wait expired, mutex not yet taken back
    | Exited
    | Hold(c: Conn)                                 // working on a locked connection
    | Returning(c: Conn, code: Code, closed: bool)  // return value computed, response not yet destroyed
    | Returned(c: Conn, code: Code)                 // back in the worker loop
    | Hup(c: Conn)                                  // retiring a locked connection, will not reschedule
    | Owe(next: nat)                                // unlocked, owes a reschedule to every scheduler >= next
    | Dispose(c: Conn, next: nat)                   // removed the connection from every scheduler < next

  datatype State = State(
    live: set<Conn>,           // created and not yet destroyed
    locked: set<Conn>,         // connection mutexes that are taken
    expired: set<Conn>,        // retired: no longer active, waiting to be disposed
    pending: set<Conn>,        // output stream not drained
    polled: set<Conn>,         // registered with the write poller
    lists: seq<seq<Conn>>,     // the schedulers' queues
    pc: seq<PC>)

  /** Where a released response is to be written: a lock-suppressing queue or the write poller. */
  datatype Target = ToQueue(k: nat) | ToPoller

  datatype Step =
    | Accept(c: Conn)
    | Advance(t: nat)
    | Spurious(t: nat)
    | Timeout(t: nat)
    | Spawn(t: nat)
    | TakeRead(t: nat, c: Conn)
    | TakeHup(t: nat, c: Conn)
    | TakeDispose(t: nat, c: Conn)
    | TakeWritable(t: nat, c: Conn)
    | AddTask(t: nat, k: nat)
    | Retire(t: nat)
    | Produce(t: nat)
    | Drain(t: nat)
    | Done(t: nat)
    | Evaluate(t: nat, closed: bool)
    | Destruct(t: nat, target: Target)
    | WriteAgain(t: nat)
    | PollAgain(t: nat)
    | WriteTimeout(t: nat)

  /** `Response::response_code` without a continuation. */
  function ResponseCode(closed: bool, outputPending: bool): Code {
    if !closed && outputPending then Keep else Release
  }

  predicate InMutex(p: PC, k: nat) {
    (p.Check? || p.Scan?) && p.k == k
  }

  predicate MutexFree(s: State, k: nat) {
    forall t :: 0 <= t < |s.pc| ==> !InMutex(s.pc[t], k)
  }

  function Goto(s: State, t: nat, p: PC): State
    requires t < |s.pc|
  {
    s.(pc := s.pc[t := p])
  }

  function Notified(p: PC, k: nat): PC {
    if p.Asleep? && p.k == k then Woken(k, p.rescan) else p
  }

  /** `cond_.notify_all()` of scheduler `k`. */
  function NotifyAll(s: State, k: nat): (r: State)
    ensures r == s.(pc := r.pc) && |r.pc| == |s.pc|
    ensures forall t :: 0 <= t < |s.pc| ==> r.pc[t] == Notified(s.pc[t], k)
  {
    s.(pc := seq(|s.pc|, t requires 0 <= t < |s.pc| => Notified(s.pc[t], k)))
  }

  ghost predicate Shape(g: Config, s: State) {
    && |s.lists| == |g.suppress|
    && |s.pc| == |g.roles|
    && forall k :: 0 <= k < |s.lists| ==> NoDup(s.lists[k])
  }

  predicate IsWorker(g: Config, t: nat) {
    t < |g.roles| && g.roles[t].Stage? && g.roles[t].k < |g.suppress|
  }

  /** Whether thread `t` works for a stage that locks the connections it picks. */
  predicate LockingWorker(g: Config, t: nat) {
    IsWorker(g, t) && !g.suppress[g.roles[t].k]
  }

  predicate SuppressWorker(g: Config, t: nat) {
    IsWorker(g, t) && g.suppress[g.roles[t].k]
  }

  predicate Locking(g: Config, k: nat) {
    k < |g.suppress| && !g.suppress[k]
  }

  predicate TargetOk(g: Config, s: State, target: Target) {
    match target
    case ToQueue(k) => k < |g.suppress| && g.suppress[k] && MutexFree(s, k)
    case ToPoller => true
  }

  /** `QueueScheduler::add_task`: notifies only when the queue was empty. */
  ghost function Enqueue(g: Config, s: State, k: nat, c: Conn): State
    requires Shape(g, s) && k < |s.lists|
  {
    var s1 := s.(lists := s.lists[k := Added(s.lists[k], c)]);
    if s.lists[k] == [] then NotifyAll(s1, k) else s1
  }

  ghost function Park(g: Config, s: State, target: Target, c: Conn): State
    requires Shape(g, s) && TargetOk(g, s, target)
  {
    match target
    case ToQueue(k) => Enqueue(g, s, k, c)
    case ToPoller => s.(polled := s.polled + {c})
  }

  /** Whether thread `t`'s next program step can be taken: only the mutex acquisitions block. */
  ghost predicate CanAdvance(g: Config, s: State, t: nat)
    requires Shape(g, s)
  {
    t < |s.pc| &&
    match s.pc[t]
    case Idle => IsWorker(g, t) && MutexFree(s, g.roles[t].k)
    case Check(k) => k < |s.lists|
    case Scan(k, i) => k < |s.lists| && i <= |s.lists[k]|
    case Asleep(_, _) => false
    case Woken(k, _) => MutexFree(s, k)
    case TimedOut(k) => MutexFree(s, k)
    case Exited => false
    case Hold(_) => false
    case Returning(_, _, _) => false
    case Returned(_, _) => true
    case Hup(_) => true
    case Owe(next) => Locking(g, next) ==> MutexFree(s, next)
    case Dispose(_, next) => next < |s.lists| ==> MutexFree(s, next)
  }

  ghost function Advanced(g: Config, s: State, t: nat): State
    requires Shape(g, s) && CanAdvance(g, s, t)
  {
    match s.pc[t]
    case Idle => Goto(s, t, Check(g.roles[t].k))
    case Check(k) =>
      if s.lists[k] == [] then Goto(s, t, Asleep(k, false))
      else if g.suppress[k] then
        Goto(s.(lists := s.lists[k := s.lists[k][1..]]), t, Hold(s.lists[k][0]))
      else Goto(s, t, Scan(k, 0))
    case Scan(k, i) =>
      if i == |s.lists[k]| then Goto(s, t, Asleep(k, true))
      else
        var c := s.lists[k][i];
        if c in s.locked then Goto(s, t, Scan(k, i + 1))
        else Goto(s.(locked := s.locked + {c}, lists := s.lists[k := Without(s.lists[k], c)]), t, Hold(c))
    case Woken(k, rescan) => Goto(s, t, if rescan then Scan(k, 0) else Check(k))
    case TimedOut(k) => Goto(s, t, Exited)
    case Returned(c, code) =>
      if code == Keep then Goto(s, t, Idle)
      else Goto(s.(locked := s.locked - {c}), t, Owe(0))
    case Hup(c) =>
      if c !in s.expired then s.(expired := s.expired + {c})
      else Goto(s.(locked := s.locked - {c}), t, Idle)
    case Owe(next) =>
      if next >= |s.lists| then Goto(s, t, Idle)
      else if g.suppress[next] then Goto(s, t, Owe(next + 1))
      else Goto(NotifyAll(s, next), t, Owe(next + 1))
    case Dispose(c, next) =>
      if next < |s.lists| then
        Goto(s.(lists := s.lists[next := Without(s.lists[next], c)]), t, Dispose(c, next + 1))
      else
        Goto(s.(locked := s.locked - {c}, live := s.live - {c}, expired := s.expired - {c},
                pending := s.pending - {c}), t, Idle)
  }

  ghost predicate Holding(s: State, t: nat) {
    t < |s.pc| && s.pc[t].Hold?
  }

  ghost predicate Free(g: Config, s: State, t: nat, role: Role) {
    t < |s.pc| && t < |g.roles| && g.roles[t] == role && s.pc[t] == Idle
  }

  ghost predicate Enabled(g: Config, s: State, step: Step) {
    Shape(g, s) &&
    match step
    case Accept(c) => c !in s.live
    case Advance(t) => CanAdvance(g, s, t)
    case Spurious(t) => t < |s.pc| && s.pc[t].Asleep?
    case Timeout(t) => t < |s.pc| && s.pc[t].Asleep?
    case Spawn(t) => t < |s.pc| && s.pc[t] == Exited
    case TakeRead(t, c) => Free(g, s, t, PollIn) && c in s.live && c !in s.locked
    case TakeHup(t, c) => Free(g, s, t, PollIn) && c in s.live && c !in s.locked
    case TakeDispose(t, c) => Free(g, s, t, PollIn) && c in s.expired && c !in s.locked
    case TakeWritable(t, c) => Free(g, s, t, PollOut) && c in s.polled
    case AddTask(t, k) => Holding(s, t) && (LockingWorker(g, t) || g.roles[t] == PollIn) && Locking(g, k) && MutexFree(s, k)
    case Retire(t) => Holding(s, t)
    case Produce(t) => Holding(s, t)
    case Drain(t) => Holding(s, t)
    case Done(t) => Holding(s, t)
    case Evaluate(t, closed) => Holding(s, t) && LockingWorker(g, t)
    case Destruct(t, target) => t < |s.pc| && s.pc[t].Returning? && TargetOk(g, s, target)
    case WriteAgain(t) => Holding(s, t) && SuppressWorker(g, t) && s.pc[t].c in s.pending && MutexFree(s, g.roles[t].k)
    case PollAgain(t) => Holding(s, t) && g.roles[t] == PollOut && s.pc[t].c in s.pending
    case WriteTimeout(t) => Holding(s, t) && g.roles[t] == PollOut
  }

  ghost function Apply(g: Config, s: State, step: Step): State
    requires Enabled(g, s, step)
  {
    match step
    case Accept(c) => s.(live := s.live + {c})
    case Advance(t) => Advanced(g, s, t)
    case Spurious(t) => Goto(s, t, Woken(s.pc[t].k, s.pc[t].rescan))
    case Timeout(t) => Goto(s, t, TimedOut(s.pc[t].k))
    case Spawn(t) => Goto(s, t, Idle)
    case TakeRead(t, c) => Goto(s.(locked := s.locked + {c}), t, Hold(c))
    case TakeHup(t, c) => Goto(s.(locked := s.locked + {c}), t, Hup(c))
    case TakeDispose(t, c) => Goto(s.(locked := s.locked + {c}), t, Dispose(c, 0))
    case TakeWritable(t, c) => Goto(s.(polled := s.polled - {c}), t, Hold(c))
    case AddTask(t, k) => Enqueue(g, s, k, s.pc[t].c)
    case Retire(t) => s.(expired := s.expired + {s.pc[t].c})
    case Produce(t) => s.(pending := s.pending + {s.pc[t].c})
    case Drain(t) => s.(pending := s.pending - {s.pc[t].c})
    case Done(t) => Goto(s, t, Returned(s.pc[t].c, Release))
    case Evaluate(t, closed) =>
      Goto(s, t, Returning(s.pc[t].c, ResponseCode(closed, s.pc[t].c in s.pending), closed))
    case Destruct(t, target) =>
      var Returning(c, code, closed) := s.pc[t];
      var s1 := if ResponseCode(closed, c in s.pending) == Keep then Park(g, s, target, c) else s;
      Goto(s1, t, Returned(c, code))
    case WriteAgain(t) => Goto(Enqueue(g, s, g.roles[t].k, s.pc[t].c), t, Returned(s.pc[t].c, Keep))
    case PollAgain(t) => Goto(s.(polled := s.polled + {s.pc[t].c}), t, Idle)
    case WriteTimeout(t) => Goto(s, t, Hup(s.pc[t].c))
  }

  ghost function Initial(g: Config): State {
    State({}, {}, {}, {}, {}, seq(|g.suppress|, _ => []), seq(|g.roles|, _ => Idle))
  }

  /** Whether `steps` can be taken one after the other from `s`. */
  ghost predicate Runs(g: Config, s: State, steps: seq<Step>)
    decreases |steps|
  {
    steps == [] || (Enabled(g, s, steps[0]) && Runs(g, Apply(g, s, steps[0]), steps[1..]))
  }

  ghost function Final(g: Config, s: State, steps: seq<Step>): State
    requires Runs(g, s, steps)
    decreases |steps|
  {
    if steps == [] then s else Final(g, Apply(g, s, steps[0]), steps[1..])
  }
}
