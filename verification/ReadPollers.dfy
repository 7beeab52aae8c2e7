/** The read pollers on top of the pipeline protocol. A read poller asks the kernel for a batch of connections and then
    handles them one after the other; a connection of the batch may meanwhile be retired, and be disposed of by the
    poller on whose expired list it was put. */
module ReadPollers {
  import opened TaskQueue
  import opened Protocol
  import opened ProtocolSafety

  /** `home`: the read poller a connection is registered with; `doom`: the read poller that has a retired connection on
      its expired list; `batch`: what each thread still has to handle of its last wait. */
  datatype System = System(s: State, home: map<Conn, nat>, doom: map<Conn, nat>, batch: seq<seq<Conn>>)

  datatype Event =
    | Wait(t: nat, conns: seq<Conn>)   // the kernel reports connections that are registered with poller `t`
    | Skip(t: nat)                     // the next connection of the batch is locked by somebody else
    | Enable(t: nat, p: nat)           // the holder of a connection registers it with poller `p` again
    | Do(step: Step, p: nat)           // a step of the protocol; `p` is the poller chosen, if one has to be

  predicate IsPoller(g: Config, t: nat) {
    t < |g.roles| && g.roles[t] == PollIn
  }

  ghost predicate EventOk(g: Config, y: System, step: Step) {
    match step
    case TakeRead(t, c) => t < |y.batch| && y.batch[t] != [] && y.batch[t][0] == c
    case TakeHup(t, c) => t < |y.batch| && y.batch[t] != [] && y.batch[t][0] == c
    case TakeDispose(t, c) => t < |y.batch| && y.batch[t] == [] && c in y.doom && y.doom[c] == t
    case _ => true
  }

  ghost predicate Enabled(g: Config, y: System, e: Event) {
    && |y.batch| == |g.roles|
    && match e
       case Wait(t, conns) =>
         Free(g, y.s, t, PollIn) && y.batch[t] == [] && forall i :: 0 <= i < |conns| ==> conns[i] in y.home && y.home[conns[i]] == t
       case Skip(t) => t < |y.batch| && y.batch[t] != []
       case Enable(t, p) => Holding(y.s, t) && IsPoller(g, p)
       case Do(step, p) => Protocol.Enabled(g, y.s, step) && EventOk(g, y, step) && IsPoller(g, p)
  }

  /** A connection is retired by a read poller, which puts it on its own expired list, or by anybody else: then it goes
      to the poller it is registered with, or to any. */
  function Doomed(g: Config, y: System, t: nat, c: Conn, p: nat): System {
    if IsPoller(g, t) then
      y.(home := if c in y.home && y.home[c] == t then y.home - {c} else y.home, doom := y.doom[c := t])
    else if c in y.home then y.(home := y.home - {c}, doom := y.doom[c := y.home[c]])
    else y.(doom := y.doom[c := p])
  }

  /** What a step of the protocol does to registrations, expired lists and batches. */
  ghost function Noted(g: Config, y: System, step: Step, p: nat): System
    requires Protocol.Enabled(g, y.s, step) && EventOk(g, y, step)
  {
    match step
    case Accept(c) => y.(home := y.home[c := p])
    case TakeRead(t, _) => y.(batch := y.batch[t := y.batch[t][1..]])
    case TakeHup(t, _) => y.(batch := y.batch[t := y.batch[t][1..]])
    case Retire(t) => if y.s.pc[t].c in y.s.expired then y else Doomed(g, y, t, y.s.pc[t].c, p)
    case Advance(t) =>
      var pc := y.s.pc[t];
      if pc.Hup? && pc.c !in y.s.expired then Doomed(g, y, t, pc.c, p)
      else if pc.Dispose? && pc.next >= |y.s.lists| then y.(home := y.home - {pc.c}, doom := y.doom - {pc.c})
      else y
    case Destruct(t, _) =>
      var pc := y.s.pc[t];
      if ResponseCode(pc.closed, pc.c in y.s.pending) == Keep then y.(home := y.home - {pc.c}) else y
    case _ => y
  }

  ghost function Apply(g: Config, y: System, e: Event): System
    requires Enabled(g, y, e)
  {
    match e
    case Wait(t, conns) => y.(batch := y.batch[t := conns])
    case Skip(t) => y.(batch := y.batch[t := y.batch[t][1..]])
    case Enable(t, p) => y.(home := y.home[y.s.pc[t].c := p])
    case Do(step, p) => Noted(g, y, step, p).(s := Protocol.Apply(g, y.s, step))
  }

  ghost function Init(g: Config): System {
    System(Initial(g), map[], map[], seq(|g.roles|, _ => []))
  }

  ghost predicate Runs(g: Config, y: System, events: seq<Event>)
    decreases |events|
  {
    events == [] || (Enabled(g, y, events[0]) && Runs(g, Apply(g, y, events[0]), events[1..]))
  }

  ghost function Final(g: Config, y: System, events: seq<Event>): System
    requires Runs(g, y, events)
    decreases |events|
  {
    if events == [] then y else Final(g, Apply(g, y, events[0]), events[1..])
  }

  ghost predicate Reachable(g: Config, y: System) {
    exists events :: Runs(g, Init(g), events) && Final(g, Init(g), events) == y
  }

  /** No thread has a destroyed connection in its batch: it would use it next. */
  ghost predicate NoStale(y: System) {
    forall t, c :: 0 <= t < |y.batch| && c in y.batch[t] ==> c in y.s.live
  }

  // ------------------------------------------------------------ one read poller

  ghost predicate OnePoller(g: Config) {
    forall t, u :: IsPoller(g, t) && IsPoller(g, u) ==> t == u
  }

  ghost predicate Sane(g: Config, y: System) {
    && Inv(g, y.s) && |y.batch| == |g.roles| && NoStale(y)
    && (forall c :: c in y.home ==> c in y.s.live)
    && (forall t :: 0 <= t < |y.batch| && y.batch[t] != [] ==> IsPoller(g, t))
    && (forall t :: 0 <= t < |y.s.pc| && y.s.pc[t].Dispose? ==> IsPoller(g, t) && y.batch[t] == [])
  }

  /** Connections are destroyed only by the end of a disposal. */
  lemma OnlyDisposalKills(g: Config, s: State, step: Step)
    requires Protocol.Enabled(g, s, step)
    ensures var s' := Protocol.Apply(g, s, step);
      || s.live <= s'.live
      || (step.Advance? && s.pc[step.t].Dispose? && s'.live == s.live - {s.pc[step.t].c})
  {
  }

  /** A thread is disposing of a connection after a step only if it was before, or has just begun. */
  lemma DisposalBegins(g: Config, s: State, step: Step, t: nat)
    requires Protocol.Enabled(g, s, step) && t < |s.pc|
    ensures var s' := Protocol.Apply(g, s, step);
      |s'.pc| == |s.pc| && (s'.pc[t].Dispose? ==> s.pc[t].Dispose? || (step.TakeDispose? && step.t == t))
  {
  }

  lemma NotedBatch(g: Config, y: System, step: Step, p: nat, t: nat)
    requires Protocol.Enabled(g, y.s, step) && EventOk(g, y, step) && t < |y.batch|
    ensures var y' := Noted(g, y, step, p);
      && |y'.batch| == |y.batch| && (forall c :: c in y'.batch[t] ==> c in y.batch[t])
      && (y.batch[t] == [] ==> y'.batch[t] == [])
  {
  }

  lemma NotedHome(g: Config, y: System, step: Step, p: nat, c: Conn)
    requires Protocol.Enabled(g, y.s, step) && EventOk(g, y, step) && c in Noted(g, y, step, p).home
    ensures c in y.home || step == Accept(c)
    ensures step.Advance? && y.s.pc[step.t].Dispose? && y.s.pc[step.t].next >= |y.s.lists| ==> c != y.s.pc[step.t].c
  {
  }

  lemma DoSane(g: Config, y: System, step: Step, p: nat)
    requires OnePoller(g) && Sane(g, y) && Enabled(g, y, Do(step, p))
    ensures Sane(g, Apply(g, y, Do(step, p)))
  {
    var y' := Apply(g, y, Do(step, p));
    StepInv(g, y.s, step);
    OnlyDisposalKills(g, y.s, step);
    forall t | 0 <= t < |y.batch| ensures y'.batch[t] != [] ==> IsPoller(g, t) {
      NotedBatch(g, y, step, p, t);
    }
    forall t, c | 0 <= t < |y'.batch| && c in y'.batch[t] ensures c in y'.s.live {
      NotedBatch(g, y, step, p, t);
    }
    forall c | c in y'.home ensures c in y'.s.live {
      NotedHome(g, y, step, p, c);
    }
    forall t | 0 <= t < |y'.s.pc| && y'.s.pc[t].Dispose? ensures IsPoller(g, t) && y'.batch[t] == [] {
      DisposalBegins(g, y.s, step, t);
      NotedBatch(g, y, step, p, t);
    }
  }

  lemma EventSane(g: Config, y: System, e: Event)
    requires OnePoller(g) && Sane(g, y) && Enabled(g, y, e)
    ensures Sane(g, Apply(g, y, e))
  {
    match e {
      case Do(step, p) => DoSane(g, y, step, p);
      case Enable(t, p) => HeldIsLocked(g, y.s, Thread(t), y.s.pc[t].c);
      case Wait(t, conns) =>
      case Skip(t) =>
    }
  }

  lemma {:induction false} RunSane(g: Config, y: System, events: seq<Event>)
    requires OnePoller(g) && Sane(g, y) && Runs(g, y, events)
    ensures Sane(g, Final(g, y, events))
    decreases |events|
  {
    if events != [] {
      EventSane(g, y, events[0]);
      RunSane(g, Apply(g, y, events[0]), events[1..]);
    }
  }

  /** With one read poller no batch ever holds a destroyed connection. */
  lemma OnePollerIsSafe(g: Config, y: System)
    requires OnePoller(g) && Reachable(g, y)
    ensures NoStale(y)
  {
    var events :| Runs(g, Init(g), events) && Final(g, Init(g), events) == y;
    InitialInv(g);
    RunSane(g, Init(g), events);
  }

  // ------------------------------------------------------------ more than one read poller

  /** One handler stage with one worker, one write poller, and `n` read pollers. */
  function Server(n: nat): Config {
    Config([false], [Stage(0), PollOut] + seq(n, _ => PollIn))
  }

  /** Connection 0 is the only one; `lock`, `retired`, `out` and `queue` say where it is. */
  function At(n: nat, live: bool, lock: bool, retired: bool, pending: bool, out: bool, queue: seq<Conn>, worker: PC, writer: PC,
              first: PC, second: PC): State
    requires n >= 2
  {
    State(If(live), If(lock), If(retired), If(pending), If(out), [queue], [worker, writer, first, second] + seq(n - 2, _ => Idle))
  }

  function If(b: bool): set<Conn> {
    if b then {0} else {}
  }

  function Sys(n: nat, s: State, home: map<Conn, nat>, doom: map<Conn, nat>, batch: seq<Conn>): System
    requires n >= 2
  {
    System(s, home, doom, [[], [], batch, []] + seq(n - 2, _ => []))
  }

  lemma {:induction false} RunsSnoc(g: Config, y: System, events: seq<Event>, e: Event)
    requires Runs(g, y, events) && Enabled(g, Final(g, y, events), e)
    ensures Runs(g, y, events + [e]) && Final(g, y, events + [e]) == Apply(g, Final(g, y, events), e)
    decreases |events|
  {
    if events == [] {
      assert events + [e] == [e] && [e][1..] == [];
    } else {
      RunsSnoc(g, Apply(g, y, events[0]), events[1..], e);
      assert (events + [e])[1..] == events[1..] + [e];
    }
  }

  lemma Next(g: Config, y: System, e: Event, y': System)
    requires Reachable(g, y) && Enabled(g, y, e) && Apply(g, y, e) == y'
    ensures Reachable(g, y')
  {
    var events :| Runs(g, Init(g), events) && Final(g, Init(g), events) == y;
    RunsSnoc(g, Init(g), events, e);
  }

  lemma InitReachable(g: Config)
    ensures Reachable(g, Init(g))
  {
    assert Runs(g, Init(g), []) && Final(g, Init(g), []) == Init(g);
  }

  /** A connection is accepted, and has something to read. */
  lemma Accepted(n: nat) returns (y: System)
    requires n >= 2
    ensures y == Sys(n, At(n, true, false, false, false, false, [], Idle, Idle, Idle, Idle), map[0 := 2], map[], [0]) && Reachable(Server(n), y)
  {
    var y0 := Sys(n, At(n, false, false, false, false, false, [], Idle, Idle, Idle, Idle), map[], map[], []);
    assert Init(Server(n)) == y0;
    InitReachable(Server(n));
    var y1 := Sys(n, At(n, true, false, false, false, false, [], Idle, Idle, Idle, Idle), map[0 := 2], map[], []);
    Next(Server(n), y0, Do(Accept(0), 2), y1);
    y := Sys(n, At(n, true, false, false, false, false, [], Idle, Idle, Idle, Idle), map[0 := 2], map[], [0]);
    Next(Server(n), y1, Wait(2, [0]), y);
  }

  /** The first poller takes the connection. */
  lemma ReaderTakes(n: nat) returns (y: System)
    requires n >= 2
    ensures y == Sys(n, At(n, true, true, false, false, false, [], Idle, Idle, Hold(0), Idle), map[0 := 2], map[], []) && Reachable(Server(n), y)
  {
    var y2 := Accepted(n);
    assert [0 as Conn][1..] == [];
    y := Sys(n, At(n, true, true, false, false, false, [], Idle, Idle, Hold(0), Idle), map[0 := 2], map[], []);
    Next(Server(n), y2, Do(TakeRead(2, 0), 2), y);
  }

  /** It reads a request and queues the connection. */
  lemma RequestIsRead(n: nat) returns (y: System)
    requires n >= 2
    ensures y == Sys(n, At(n, true, true, false, false, false, [0], Idle, Idle, Hold(0), Idle), map[0 := 2], map[], []) && Reachable(Server(n), y)
  {
    var y3 := ReaderTakes(n);
    assert Added([], 0) == [0] && Enqueue(Server(n), y3.s, 0, 0).pc == y3.s.pc;
    y := Sys(n, At(n, true, true, false, false, false, [0], Idle, Idle, Hold(0), Idle), map[0 := 2], map[], []);
    Next(Server(n), y3, Do(AddTask(2, 0), 2), y);
  }

  /** It lets the connection go. */
  lemma ReaderLetsGo(n: nat) returns (y: System)
    requires n >= 2
    ensures y == Sys(n, At(n, true, false, false, false, false, [0], Idle, Idle, Owe(0), Idle), map[0 := 2], map[], []) && Reachable(Server(n), y)
  {
    var y4 := RequestIsRead(n);
    var y5 := Sys(n, At(n, true, true, false, false, false, [0], Idle, Idle, Returned(0, Release), Idle), map[0 := 2], map[], []);
    Next(Server(n), y4, Do(Done(2), 2), y5);
    y := Sys(n, At(n, true, false, false, false, false, [0], Idle, Idle, Owe(0), Idle), map[0 := 2], map[], []);
    Next(Server(n), y5, Do(Advance(2), 2), y);
  }

  /** The kernel reports more input for it. */
  lemma BatchIsWaiting(n: nat) returns (y: System)
    requires n >= 2
    ensures y == Sys(n, At(n, true, false, false, false, false, [0], Idle, Idle, Idle, Idle), map[0 := 2], map[], [0]) && Reachable(Server(n), y)
  {
    var y6 := ReaderLetsGo(n);
    var y7 := Sys(n, At(n, true, false, false, false, false, [0], Idle, Idle, Owe(1), Idle), map[0 := 2], map[], []);
    Next(Server(n), y6, Do(Advance(2), 2), y7);
    var y8 := Sys(n, At(n, true, false, false, false, false, [0], Idle, Idle, Idle, Idle), map[0 := 2], map[], []);
    Next(Server(n), y7, Do(Advance(2), 2), y8);
    y := Sys(n, At(n, true, false, false, false, false, [0], Idle, Idle, Idle, Idle), map[0 := 2], map[], [0]);
    Next(Server(n), y8, Wait(2, [0]), y);
  }

  /** A worker scans the queue. */
  lemma WorkerScans(n: nat) returns (y: System)
    requires n >= 2
    ensures y == Sys(n, At(n, true, false, false, false, false, [0], Scan(0, 0), Idle, Idle, Idle), map[0 := 2], map[], [0]) && Reachable(Server(n), y)
  {
    var y9 := BatchIsWaiting(n);
    var y10 := Sys(n, At(n, true, false, false, false, false, [0], Check(0), Idle, Idle, Idle), map[0 := 2], map[], [0]);
    Next(Server(n), y9, Do(Advance(0), 2), y10);
    y := Sys(n, At(n, true, false, false, false, false, [0], Scan(0, 0), Idle, Idle, Idle), map[0 := 2], map[], [0]);
    Next(Server(n), y10, Do(Advance(0), 2), y);
  }

  /** It takes the connection. */
  lemma WorkerPicks(n: nat) returns (y: System)
    requires n >= 2
    ensures y == Sys(n, At(n, true, true, false, false, false, [], Hold(0), Idle, Idle, Idle), map[0 := 2], map[], [0]) && Reachable(Server(n), y)
  {
    var y11 := WorkerScans(n);
    y := Sys(n, At(n, true, true, false, false, false, [], Hold(0), Idle, Idle, Idle), map[0 := 2], map[], [0]);
    Next(Server(n), y11, Do(Advance(0), 2), y);
  }

  /** It produces a response. */
  lemma ResponseIsProduced(n: nat) returns (y: System)
    requires n >= 2
    ensures y == Sys(n, At(n, true, true, false, true, false, [], Hold(0), Idle, Idle, Idle), map[0 := 2], map[], [0]) && Reachable(Server(n), y)
  {
    var y12 := WorkerPicks(n);
    y := Sys(n, At(n, true, true, false, true, false, [], Hold(0), Idle, Idle, Idle), map[0 := 2], map[], [0]);
    Next(Server(n), y12, Do(Produce(0), 2), y);
  }

  /** It leaves the response open. */
  lemma ResponseIsReady(n: nat) returns (y: System)
    requires n >= 2
    ensures y == Sys(n, At(n, true, true, false, true, false, [], Returning(0, Keep, false), Idle, Idle, Idle), map[0 := 2], map[], [0]) && Reachable(Server(n), y)
  {
    var y13 := ResponseIsProduced(n);
    y := Sys(n, At(n, true, true, false, true, false, [], Returning(0, Keep, false), Idle, Idle, Idle), map[0 := 2], map[], [0]);
    Next(Server(n), y13, Do(Evaluate(0, false), 2), y);
  }

  /** The response is handed to the write poller, which takes the connection out of the read poller. */
  lemma ResponseIsParked(n: nat) returns (y: System)
    requires n >= 2
    ensures y == Sys(n, At(n, true, true, false, true, true, [], Idle, Idle, Idle, Idle), map[], map[], [0]) && Reachable(Server(n), y)
  {
    var y14 := ResponseIsReady(n);
    var y15 := Sys(n, At(n, true, true, false, true, true, [], Returned(0, Keep), Idle, Idle, Idle), map[], map[], [0]);
    Next(Server(n), y14, Do(Destruct(0, ToPoller), 2), y15);
    y := Sys(n, At(n, true, true, false, true, true, [], Idle, Idle, Idle, Idle), map[], map[], [0]);
    Next(Server(n), y15, Do(Advance(0), 2), y);
  }

  /** A write fails, and the connection is closed: nobody has it registered, so it goes to the second poller. */
  lemma WriteFails(n: nat) returns (y: System)
    requires n >= 2
    ensures y == Sys(n, At(n, true, true, true, true, false, [], Idle, Hold(0), Idle, Idle), map[], map[0 := 3], [0]) && Reachable(Server(n), y)
  {
    var y16 := ResponseIsParked(n);
    var y17 := Sys(n, At(n, true, true, false, true, false, [], Idle, Hold(0), Idle, Idle), map[], map[], [0]);
    Next(Server(n), y16, Do(TakeWritable(1, 0), 2), y17);
    y := Sys(n, At(n, true, true, true, true, false, [], Idle, Hold(0), Idle, Idle), map[], map[0 := 3], [0]);
    Next(Server(n), y17, Do(Retire(1), 3), y);
  }

  /** The write poller lets it go. */
  lemma WriterLeaves(n: nat) returns (y: System)
    requires n >= 2
    ensures y == Sys(n, At(n, true, false, true, true, false, [], Idle, Owe(0), Idle, Idle), map[], map[0 := 3], [0]) && Reachable(Server(n), y)
  {
    var y18 := WriteFails(n);
    var y19 := Sys(n, At(n, true, true, true, true, false, [], Idle, Returned(0, Release), Idle, Idle), map[], map[0 := 3], [0]);
    Next(Server(n), y18, Do(Done(1), 3), y19);
    y := Sys(n, At(n, true, false, true, true, false, [], Idle, Owe(0), Idle, Idle), map[], map[0 := 3], [0]);
    Next(Server(n), y19, Do(Advance(1), 3), y);
  }

  /** The second poller begins to dispose of it. */
  lemma SecondTakes(n: nat) returns (y: System)
    requires n >= 2
    ensures y == Sys(n, At(n, true, true, true, true, false, [], Idle, Owe(0), Idle, Dispose(0, 1)), map[], map[0 := 3], [0]) && Reachable(Server(n), y)
  {
    var y20 := WriterLeaves(n);
    var y21 := Sys(n, At(n, true, true, true, true, false, [], Idle, Owe(0), Idle, Dispose(0, 0)), map[], map[0 := 3], [0]);
    Next(Server(n), y20, Do(TakeDispose(3, 0), 3), y21);
    y := Sys(n, At(n, true, true, true, true, false, [], Idle, Owe(0), Idle, Dispose(0, 1)), map[], map[0 := 3], [0]);
    Next(Server(n), y21, Do(Advance(3), 3), y);
  }

  /** It destroys the connection while the first poller still has it in its batch. */
  lemma SecondDisposes(n: nat) returns (y: System)
    requires n >= 2
    ensures y == Sys(n, At(n, false, false, false, false, false, [], Idle, Owe(0), Idle, Idle), map[], map[], [0]) && Reachable(Server(n), y)
  {
    var y22 := SecondTakes(n);
    y := Sys(n, At(n, false, false, false, false, false, [], Idle, Owe(0), Idle, Idle), map[], map[], [0]);
    Next(Server(n), y22, Do(Advance(3), 3), y);
  }

  /** A server never has a destroyed connection in the batch of a read poller if and only if it has at most one. */
  lemma SafeExactlyWithOnePoller(n: nat)
    ensures (forall y :: Reachable(Server(n), y) ==> NoStale(y)) <==> n <= 1
  {
    if n <= 1 {
      assert OnePoller(Server(n));
      forall y | Reachable(Server(n), y) ensures NoStale(y) {
        OnePollerIsSafe(Server(n), y);
      }
    } else {
      var y := TwoPollersAreNot(n);
    }
  }

  lemma TwoPollersAreNot(n: nat) returns (y: System)
    requires n >= 2
    ensures Reachable(Server(n), y) && !NoStale(y)
  {
    y := SecondDisposes(n);
    assert 0 in y.batch[2] && 0 !in y.s.live;
  }
}
