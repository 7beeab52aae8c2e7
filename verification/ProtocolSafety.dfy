/** Every reachable state of the protocol: no lost wakeup, one holder per connection lock,
    no reference to a destroyed connection. */
module ProtocolSafety {
  import opened Basics
  import opened TaskQueue
  import opened Protocol

  datatype Holder = Thread(t: nat) | Queue(k: nat) | Poller

  /** The program points at which a thread is entitled to unlock `c`. */
  predicate PcHolds(p: PC, c: Conn) {
    match p
    case Hold(d) => c == d
    case Returning(d, _, _) => c == d
    case Returned(d, code) => c == d && code == Release
    case Hup(d) => c == d
    case Dispose(d, _) => c == d
    case _ => false
  }

  ghost predicate Holds(g: Config, s: State, h: Holder, c: Conn) {
    match h
    case Thread(t) => t < |s.pc| && PcHolds(s.pc[t], c)
    case Queue(k) => k < |g.suppress| && k < |s.lists| && g.suppress[k] && c in s.lists[k]
    case Poller => c in s.polled
  }

  /** Whether some thread has unlocked a connection and has yet to reschedule `k`. */
  ghost predicate Owed(s: State, k: nat) {
    exists t :: 0 <= t < |s.pc| && s.pc[t].Owe? && s.pc[t].next <= k
  }

  /** A queued connection that no sleeping worker has to be woken for now. */
  ghost predicate Covered(s: State, k: nat, c: Conn) {
    c in s.locked || c in s.expired || Owed(s, k)
  }

  // ------------------------------------------------------------ the invariant

  ghost predicate PcOk(g: Config, s: State, t: nat)
    requires Shape(g, s) && t < |s.pc|
  {
    match s.pc[t]
    case Check(k) => g.roles[t] == Stage(k) && k < |s.lists|
    case Scan(k, i) => g.roles[t] == Stage(k) && Locking(g, k) && i <= |s.lists[k]|
    case Asleep(k, rescan) => g.roles[t] == Stage(k) && k < |s.lists| && (rescan ==> Locking(g, k))
    case Woken(k, rescan) => g.roles[t] == Stage(k) && k < |s.lists| && (rescan ==> Locking(g, k))
    case TimedOut(k) => g.roles[t] == Stage(k) && k < |s.lists|
    case Returning(c, code, closed) => code == ResponseCode(closed, c in s.pending)
    case Dispose(c, next) => c in s.expired && forall k :: 0 <= k < next && k < |s.lists| ==> c !in s.lists[k]
    case _ => true
  }

  ghost predicate Typed(g: Config, s: State) {
    Shape(g, s) && forall t :: 0 <= t < |s.pc| ==> PcOk(g, s, t)
  }

  ghost predicate Exclusive(s: State) {
    forall t, u, k :: 0 <= t < |s.pc| && 0 <= u < |s.pc| && InMutex(s.pc[t], k) && InMutex(s.pc[u], k) ==> t == u
  }

  ghost predicate Sole(g: Config, s: State, c: Conn, h: Holder) {
    forall i :: Holds(g, s, i, c) <==> i == h
  }

  ghost predicate Unheld(g: Config, s: State, c: Conn) {
    forall i :: !Holds(g, s, i, c)
  }

  /** A taken lock has exactly one holder, a free one has none. */
  ghost predicate OneHolder(g: Config, s: State) {
    forall c :: if c in s.locked then exists h :: Sole(g, s, c, h) else Unheld(g, s, c)
  }

  ghost predicate NoDangling(s: State) {
    && s.locked <= s.live && s.expired <= s.live
    && forall k, c :: 0 <= k < |s.lists| && c in s.lists[k] ==> c in s.live
  }

  ghost predicate WakefulAt(g: Config, s: State, t: nat)
    requires Typed(g, s) && t < |s.pc|
  {
    assert PcOk(g, s, t);
    match s.pc[t]
    case Asleep(k, _) =>
      if g.suppress[k] then s.lists[k] == [] else forall c :: c in s.lists[k] ==> Covered(s, k, c)
    case Scan(k, i) => forall j :: 0 <= j < i ==> Covered(s, k, s.lists[k][j])
    case _ => true
  }

  ghost predicate Wakeful(g: Config, s: State) {
    Typed(g, s) && forall t :: 0 <= t < |s.pc| ==> WakefulAt(g, s, t)
  }

  ghost predicate Inv(g: Config, s: State) {
    Typed(g, s) && Exclusive(s) && OneHolder(g, s) && NoDangling(s) && Wakeful(g, s)
  }

  lemma InitialInv(g: Config)
    ensures Inv(g, Initial(g))
  {
  }

  // ------------------------------------------------------------ what a step may change

  lemma HeldIsLocked(g: Config, s: State, h: Holder, c: Conn)
    requires OneHolder(g, s) && Holds(g, s, h, c)
    ensures c in s.locked && Sole(g, s, c, h)
  {
  }

  lemma OneThread(g: Config, s: State, t: nat, u: nat, c: Conn)
    requires OneHolder(g, s) && t < |s.pc| && u < |s.pc|
    requires PcHolds(s.pc[t], c) && PcHolds(s.pc[u], c)
    ensures t == u
  {
    HeldIsLocked(g, s, Thread(t), c);
    assert Holds(g, s, Thread(u), c);
  }

  ghost predicate OnlyWakes(p: PC, q: PC) {
    q == p || (p.Asleep? && q == Woken(p.k, p.rescan))
  }

  /** Thread `t` moves: the others are at most notified, a queue under another thread's mutex and
      the attributes of a connection held by another thread stay as they are. */
  ghost predicate Frame(g: Config, s: State, t: nat, s': State) {
    && Shape(g, s) && Shape(g, s') && t < |s.pc|
    && (forall u :: 0 <= u < |s.pc| && u != t ==> OnlyWakes(s.pc[u], s'.pc[u]))
    && (forall u, k :: 0 <= u < |s.pc| && u != t && 0 <= k < |s.lists| && InMutex(s.pc[u], k) ==> s'.lists[k] == s.lists[k])
    && (forall k :: InMutex(s'.pc[t], k) ==> InMutex(s.pc[t], k) || MutexFree(s, k))
    && (forall k, c :: 0 <= k < |s.lists| && c in s'.lists[k] && c !in s.lists[k] ==> PcHolds(s.pc[t], c))
    && (forall c :: (c in s.pending) != (c in s'.pending) ==> PcHolds(s.pc[t], c))
    && (forall c :: (c in s.expired) != (c in s'.expired) ==> PcHolds(s.pc[t], c))
  }

  lemma AdvanceFrame(g: Config, s: State, t: nat)
    requires Typed(g, s) && Exclusive(s) && Enabled(g, s, Advance(t))
    ensures Frame(g, s, t, Advanced(g, s, t))
  {
    assert PcOk(g, s, t);
  }

  predicate Queueing(step: Step) {
    step.AddTask? || step.Destruct? || step.WriteAgain?
  }

  /** A thread that holds `c` adds it to a queue whose mutex is free. */
  lemma EnqueueFrame(g: Config, s: State, t: nat, k: nat, c: Conn)
    requires Typed(g, s) && t < |s.pc| && k < |s.lists| && MutexFree(s, k) && PcHolds(s.pc[t], c)
    ensures Frame(g, s, t, Enqueue(g, s, k, c)) && Enqueue(g, s, k, c).pc[t] == s.pc[t]
  {
  }

  /** The thread moves on to a place outside every mutex. */
  lemma GotoFrame(g: Config, s: State, t: nat, s': State, p: PC)
    requires Frame(g, s, t, s') && !p.Check? && !p.Scan?
    ensures Frame(g, s, t, Goto(s', t, p))
  {
  }

  lemma DestructFrame(g: Config, s: State, t: nat, target: Target)
    requires Typed(g, s) && Exclusive(s) && Enabled(g, s, Destruct(t, target))
    ensures Frame(g, s, t, Apply(g, s, Destruct(t, target)))
  {
    var Returning(c, code, closed) := s.pc[t];
    if ResponseCode(closed, c in s.pending) == Keep {
      if target.ToQueue? {
        EnqueueFrame(g, s, t, target.k, c);
      }
      GotoFrame(g, s, t, Park(g, s, target, c), Returned(c, code));
    }
  }

  lemma QueueingFrame(g: Config, s: State, step: Step)
    requires Typed(g, s) && Exclusive(s) && Enabled(g, s, step) && Queueing(step)
    ensures Frame(g, s, step.t, Apply(g, s, step))
  {
    match step {
      case AddTask(t, k) => EnqueueFrame(g, s, t, k, s.pc[t].c);
      case WriteAgain(t) =>
        EnqueueFrame(g, s, t, g.roles[t].k, s.pc[t].c);
        GotoFrame(g, s, t, Enqueue(g, s, g.roles[t].k, s.pc[t].c), Returned(s.pc[t].c, Keep));
      case Destruct(t, target) => DestructFrame(g, s, t, target);
    }
  }

  lemma ChoiceFrame(g: Config, s: State, step: Step)
    requires Typed(g, s) && Exclusive(s) && Enabled(g, s, step)
    requires !step.Advance? && !step.Accept? && !Queueing(step)
    ensures Frame(g, s, step.t, Apply(g, s, step))
  {
  }

  lemma StepFrame(g: Config, s: State, step: Step)
    requires Typed(g, s) && Exclusive(s) && Enabled(g, s, step) && !step.Accept?
    ensures Frame(g, s, step.t, Apply(g, s, step))
  {
    if step.Advance? {
      AdvanceFrame(g, s, step.t);
    } else if Queueing(step) {
      QueueingFrame(g, s, step);
    } else {
      ChoiceFrame(g, s, step);
    }
  }

  // ------------------------------------------------------------ typing and mutual exclusion

  lemma ActorTyped(g: Config, s: State, step: Step)
    requires Inv(g, s) && Enabled(g, s, step) && !step.Accept?
    requires Frame(g, s, step.t, Apply(g, s, step))
    ensures PcOk(g, Apply(g, s, step), step.t)
  {
    assert PcOk(g, s, step.t);
  }

  lemma OtherTyped(g: Config, s: State, t: nat, s': State, u: nat)
    requires Inv(g, s) && Frame(g, s, t, s') && u < |s.pc| && u != t
    ensures PcOk(g, s', u)
  {
    assert PcOk(g, s, u);
    assert OnlyWakes(s.pc[u], s'.pc[u]);
    if s.pc[u].Scan? {
      assert InMutex(s.pc[u], s.pc[u].k);
    } else if s.pc[u].Returning? || s.pc[u].Dispose? {
      if PcHolds(s.pc[t], s.pc[u].c) {
        OneThread(g, s, t, u, s.pc[u].c);
      }
    }
  }

  lemma StepTyped(g: Config, s: State, step: Step)
    requires Inv(g, s) && Enabled(g, s, step) && !step.Accept?
    requires Frame(g, s, step.t, Apply(g, s, step))
    ensures Typed(g, Apply(g, s, step))
  {
    ActorTyped(g, s, step);
    var s' := Apply(g, s, step);
    forall u | 0 <= u < |s'.pc| && u != step.t ensures PcOk(g, s', u) {
      OtherTyped(g, s, step.t, s', u);
    }
  }

  lemma FrameExclusive(g: Config, s: State, t: nat, s': State)
    requires Exclusive(s) && Frame(g, s, t, s')
    ensures Exclusive(s')
  {
  }

  // ------------------------------------------------------------ the baton

  /** The connection whose lock changes hands in a step, and its next holder (None: unlocked). */
  ghost function Transfer(g: Config, s: State, step: Step): Option<(Conn, Option<Holder>)>
    requires Enabled(g, s, step)
  {
    match step
    case Advance(t) =>
      (match s.pc[t]
       case Check(k) => if s.lists[k] != [] && g.suppress[k] then Some((s.lists[k][0], Some(Thread(t)))) else None
       case Scan(k, i) =>
         if i < |s.lists[k]| && s.lists[k][i] !in s.locked then Some((s.lists[k][i], Some(Thread(t)))) else None
       case Returned(c, code) => if code == Release then Some((c, None)) else None
       case Hup(c) => if c in s.expired then Some((c, None)) else None
       case Dispose(c, next) => if next < |s.lists| then None else Some((c, None))
       case _ => None)
    case TakeRead(t, c) => Some((c, Some(Thread(t))))
    case TakeHup(t, c) => Some((c, Some(Thread(t))))
    case TakeDispose(t, c) => Some((c, Some(Thread(t))))
    case TakeWritable(t, c) => Some((c, Some(Thread(t))))
    case Destruct(t, target) =>
      if s.pc[t].code == Release then None
      else Some((s.pc[t].c, Some(if target.ToQueue? then Queue(target.k) else Poller)))
    case WriteAgain(t) => Some((s.pc[t].c, Some(Queue(g.roles[t].k))))
    case PollAgain(t) => Some((s.pc[t].c, Some(Poller)))
    case _ => None
  }

  /** In a step, only the transferred connection changes holders. */
  ghost predicate Handover(g: Config, s: State, step: Step, c: Conn, i: Holder)
    requires Enabled(g, s, step)
  {
    var x := Transfer(g, s, step);
    if x.Some? && x.value.0 == c
    then Holds(g, Apply(g, s, step), i, c) <==> x.value.1 == Some(i)
    else Holds(g, Apply(g, s, step), i, c) <==> Holds(g, s, i, c)
  }

  lemma AdvanceHandover(g: Config, s: State, t: nat, c: Conn, i: Holder)
    requires Inv(g, s) && Enabled(g, s, Advance(t))
    ensures Handover(g, s, Advance(t), c, i)
  {
    assert PcOk(g, s, t);
    var before := Holds(g, s, i, c);
    if PcHolds(s.pc[t], c) {
      HeldIsLocked(g, s, Thread(t), c);
    } else if s.pc[t].Check? && s.lists[s.pc[t].k] != [] && g.suppress[s.pc[t].k] && s.lists[s.pc[t].k][0] == c {
      HeldIsLocked(g, s, Queue(s.pc[t].k), c);
    }
  }

  lemma ChoiceHandover(g: Config, s: State, step: Step, c: Conn, i: Holder)
    requires Inv(g, s) && Enabled(g, s, step) && !step.Advance? && !Queueing(step)
    ensures Handover(g, s, step, c, i)
  {
    var before := Holds(g, s, i, c);
    if !step.Accept? && PcHolds(s.pc[step.t], c) {
      HeldIsLocked(g, s, Thread(step.t), c);
    } else if step.TakeWritable? && step.c == c {
      HeldIsLocked(g, s, Poller, c);
    }
  }

  lemma QueueingHandover(g: Config, s: State, step: Step, c: Conn, i: Holder)
    requires Inv(g, s) && Enabled(g, s, step) && Queueing(step)
    ensures Handover(g, s, step, c, i)
  {
    assert PcOk(g, s, step.t);
    var before := Holds(g, s, i, c);
    if PcHolds(s.pc[step.t], c) {
      HeldIsLocked(g, s, Thread(step.t), c);
    }
  }

  lemma LockedMatchesTransfer(g: Config, s: State, step: Step, c: Conn)
    requires Inv(g, s) && Enabled(g, s, step)
    ensures var x := Transfer(g, s, step);
      c in Apply(g, s, step).locked <==> if x.Some? && x.value.0 == c then x.value.1.Some? else c in s.locked
  {
    if !step.Accept? {
      assert PcOk(g, s, step.t);
      if step.TakeWritable? {
        HeldIsLocked(g, s, Poller, step.c);
      } else if step.Advance? && s.pc[step.t].Check? && s.lists[s.pc[step.t].k] != [] && g.suppress[s.pc[step.t].k] {
        HeldIsLocked(g, s, Queue(s.pc[step.t].k), s.lists[s.pc[step.t].k][0]);
      } else if s.pc[step.t].Hold? || s.pc[step.t].Returning? {
        HeldIsLocked(g, s, Thread(step.t), s.pc[step.t].c);
      }
    }
  }

  lemma StepOneHolder(g: Config, s: State, step: Step)
    requires Inv(g, s) && Enabled(g, s, step)
    ensures OneHolder(g, Apply(g, s, step))
  {
    var s' := Apply(g, s, step);
    var x := Transfer(g, s, step);
    forall c ensures if c in s'.locked then exists h :: Sole(g, s', c, h) else Unheld(g, s', c) {
      LockedMatchesTransfer(g, s, step, c);
      forall i ensures Handover(g, s, step, c, i) {
        StepHandover(g, s, step, c, i);
      }
      HolderAfter(g, s, step, s', c, x);
    }
  }

  lemma StepHandover(g: Config, s: State, step: Step, c: Conn, i: Holder)
    requires Inv(g, s) && Enabled(g, s, step)
    ensures Handover(g, s, step, c, i)
  {
    if step.Advance? {
      AdvanceHandover(g, s, step.t, c, i);
    } else if Queueing(step) {
      QueueingHandover(g, s, step, c, i);
    } else {
      ChoiceHandover(g, s, step, c, i);
    }
  }

  lemma HolderAfter(g: Config, s: State, step: Step, s': State, c: Conn, x: Option<(Conn, Option<Holder>)>)
    requires OneHolder(g, s) && Enabled(g, s, step)
    requires x == Transfer(g, s, step) && s' == Apply(g, s, step)
    requires c in s'.locked <==> if x.Some? && x.value.0 == c then x.value.1.Some? else c in s.locked
    requires forall i :: Handover(g, s, step, c, i)
    ensures if c in s'.locked then exists h :: Sole(g, s', c, h) else Unheld(g, s', c)
  {
    assert forall i :: Handover(g, s, step, c, i) ==> (Holds(g, s', i, c) <==>
      if x.Some? && x.value.0 == c then x.value.1 == Some(i) else Holds(g, s, i, c));
    if x.Some? && x.value.0 == c {
      if x.value.1.Some? {
        assert Sole(g, s', c, x.value.1.value);
      }
    } else if c in s.locked {
      var h :| Sole(g, s, c, h);
      assert Sole(g, s', c, h);
    }
  }

  // ------------------------------------------------------------ no reference outlives a connection

  lemma StepNoDangling(g: Config, s: State, step: Step)
    requires Inv(g, s) && Enabled(g, s, step)
    ensures NoDangling(Apply(g, s, step))
  {
    if !step.Accept? {
      assert PcOk(g, s, step.t);
      if s.pc[step.t].Hold? || s.pc[step.t].Returning? || s.pc[step.t].Hup? || s.pc[step.t].Dispose? {
        HeldIsLocked(g, s, Thread(step.t), s.pc[step.t].c);
      }
    }
  }

  // ------------------------------------------------------------ no lost wakeup

  /** No worker waits on scheduler `k` without having been notified, and none is inside its mutex. */
  ghost predicate Quiet(s: State, k: nat) {
    forall u :: 0 <= u < |s.pc| ==> !(s.pc[u].Asleep? && s.pc[u].k == k) && !InMutex(s.pc[u], k)
  }

  lemma StillOwed(g: Config, s: State, t: nat, s': State, k: nat)
    requires Frame(g, s, t, s') && Owed(s, k)
    requires s.pc[t].Owe? && s.pc[t].next <= k ==> s'.pc[t].Owe? && s'.pc[t].next <= k
    ensures Owed(s', k)
  {
  }

  /** What covered a queued connection still covers it, unless the scheduler has just been woken up. */
  lemma AdvanceCover(g: Config, s: State, t: nat, k: nat, c: Conn)
    requires Inv(g, s) && Enabled(g, s, Advance(t)) && Frame(g, s, t, Advanced(g, s, t))
    requires Locking(g, k) && c in s.lists[k] && c in Advanced(g, s, t).lists[k] && Covered(s, k, c)
    ensures Covered(Advanced(g, s, t), k, c) || Quiet(Advanced(g, s, t), k)
  {
    assert PcOk(g, s, t);
    var s' := Advanced(g, s, t);
    if s.pc[t].Owe? && s.pc[t].next <= k {
      if s.pc[t].next == k {
        assert Quiet(s', k);
      } else {
        assert s'.pc[t].Owe? && s'.pc[t].next <= k;
      }
    } else if s.pc[t].Returned? && s.pc[t].code == Release {
      assert s'.pc[t] == Owe(0);
    } else if Owed(s, k) {
      StillOwed(g, s, t, s', k);
    }
  }

  lemma ChoiceCover(g: Config, s: State, step: Step, k: nat, c: Conn)
    requires Inv(g, s) && Enabled(g, s, step) && !step.Accept? && !step.Advance?
    requires Frame(g, s, step.t, Apply(g, s, step))
    requires Locking(g, k) && c in Apply(g, s, step).lists[k]
    requires if c in s.lists[k] then Covered(s, k, c) else c in s.locked
    ensures Covered(Apply(g, s, step), k, c)
  {
  }

  lemma StepCover(g: Config, s: State, step: Step, k: nat, c: Conn)
    requires Inv(g, s) && Enabled(g, s, step) && !step.Accept? && Frame(g, s, step.t, Apply(g, s, step))
    requires Locking(g, k) && c in Apply(g, s, step).lists[k]
    requires c in s.lists[k] ==> Covered(s, k, c)
    ensures Covered(Apply(g, s, step), k, c) || Quiet(Apply(g, s, step), k)
  {
    if c !in s.lists[k] {
      HeldIsLocked(g, s, Thread(step.t), c);
    }
    if step.Advance? {
      AdvanceCover(g, s, step.t, k, c);
    } else {
      ChoiceCover(g, s, step, k, c);
    }
  }

  /** A lock-suppressing queue that becomes non-empty leaves no worker asleep. */
  lemma StepSuppressed(g: Config, s: State, step: Step, k: nat, u: nat)
    requires Inv(g, s) && Enabled(g, s, step) && !step.Accept? && Frame(g, s, step.t, Apply(g, s, step))
    requires k < |s.lists| && g.suppress[k] && u < |s.pc|
    requires Apply(g, s, step).pc[u].Asleep? && Apply(g, s, step).pc[u].k == k
    ensures Apply(g, s, step).lists[k] == []
  {
    assert WakefulAt(g, s, u);
    assert PcOk(g, s, u);
  }

  /** The stepping thread: a failed try_lock extends the scanned prefix, a finished scan goes to sleep. */
  lemma ActorBefore(g: Config, s: State, step: Step, k: nat)
    requires Inv(g, s) && Enabled(g, s, step) && !step.Accept? && Locking(g, k)
    ensures Apply(g, s, step).pc[step.t].Scan? && Apply(g, s, step).pc[step.t].k == k
            ==> Apply(g, s, step).lists[k] == s.lists[k]
                && Apply(g, s, step).pc[step.t].i <= |s.lists[k]|
                && forall j :: 0 <= j < Apply(g, s, step).pc[step.t].i ==> Covered(s, k, s.lists[k][j])
    ensures Apply(g, s, step).pc[step.t].Asleep? && Apply(g, s, step).pc[step.t].k == k
            ==> forall c :: c in s.lists[k] ==> Covered(s, k, c)
  {
    assert WakefulAt(g, s, step.t);
    assert PcOk(g, s, step.t);
  }

  lemma StepWakefulAt(g: Config, s: State, step: Step, s': State, u: nat)
    requires Inv(g, s) && Enabled(g, s, step) && !step.Accept? && s' == Apply(g, s, step)
    requires Frame(g, s, step.t, s') && Typed(g, s') && u < |s.pc|
    ensures WakefulAt(g, s', u)
  {
    assert PcOk(g, s', u) && PcOk(g, s, u) && WakefulAt(g, s, u);
    assert u != step.t ==> OnlyWakes(s.pc[u], s'.pc[u]);
    if s'.pc[u].Asleep? && g.suppress[s'.pc[u].k] {
      StepSuppressed(g, s, step, s'.pc[u].k, u);
    } else if s'.pc[u].Asleep? {
      var k := s'.pc[u].k;
      ActorBefore(g, s, step, k);
      forall c | c in s'.lists[k] ensures Covered(s', k, c) {
        StepCover(g, s, step, k, c);
      }
    } else if s'.pc[u].Scan? {
      var k := s'.pc[u].k;
      ActorBefore(g, s, step, k);
      assert InMutex(s'.pc[u], k);
      assert u != step.t ==> InMutex(s.pc[u], k);
      forall j | 0 <= j < s'.pc[u].i ensures Covered(s', k, s'.lists[k][j]) {
        ScannedCovered(g, s, step, s', k, s'.lists[k][j], u, j);
      }
    }
  }

  lemma ScannedCovered(g: Config, s: State, step: Step, s': State, k: nat, c: Conn, u: nat, j: nat)
    requires Inv(g, s) && Enabled(g, s, step) && !step.Accept? && s' == Apply(g, s, step)
    requires Frame(g, s, step.t, s') && Locking(g, k) && u < |s.pc| && InMutex(s'.pc[u], k)
    requires j < |s.lists[k]| && s'.lists[k] == s.lists[k] && c == s.lists[k][j] && Covered(s, k, c)
    ensures Covered(s', k, c)
  {
    StepCover(g, s, step, k, c);
  }

  // ------------------------------------------------------------ every run

  lemma StepInv(g: Config, s: State, step: Step)
    requires Inv(g, s) && Enabled(g, s, step)
    ensures Inv(g, Apply(g, s, step))
  {
    var s' := Apply(g, s, step);
    StepOneHolder(g, s, step);
    StepNoDangling(g, s, step);
    if step.Accept? {
      AcceptInv(g, s, step.c);
    } else {
      StepFrame(g, s, step);
      StepTyped(g, s, step);
      FrameExclusive(g, s, step.t, s');
      forall u | 0 <= u < |s'.pc| ensures WakefulAt(g, s', u) {
        StepWakefulAt(g, s, step, s', u);
      }
    }
  }

  lemma AcceptInv(g: Config, s: State, c: Conn)
    requires Inv(g, s) && c !in s.live
    ensures Wakeful(g, s.(live := s.live + {c})) && Exclusive(s.(live := s.live + {c}))
  {
    var s' := s.(live := s.live + {c});
    forall u | 0 <= u < |s'.pc| ensures PcOk(g, s', u) {
      assert PcOk(g, s, u);
    }
    forall k, d | Covered(s, k, d) ensures Covered(s', k, d) {
      if Owed(s, k) {
        var v :| 0 <= v < |s.pc| && s.pc[v].Owe? && s.pc[v].next <= k;
        assert s'.pc[v].Owe?;
      }
    }
    forall u | 0 <= u < |s'.pc| ensures WakefulAt(g, s', u) {
      assert WakefulAt(g, s, u);
    }
  }

  lemma {:induction false} RunInv(g: Config, s: State, steps: seq<Step>)
    requires Inv(g, s) && Runs(g, s, steps)
    ensures Inv(g, Final(g, s, steps))
    decreases |steps|
  {
    if steps != [] {
      StepInv(g, s, steps[0]);
      RunInv(g, Apply(g, s, steps[0]), steps[1..]);
    }
  }
}
