/** `Controller`: decides from the recent load whether a stage gets one more worker thread. */
module ControllerModel {

  const MAX_FEEDBACK: nat := 16
  const MIN_FEEDBACK: nat := 8
  const MIN_LOAD: int := 15
  const MAX_THREAD: nat := 128

  datatype State = State(threads: set<nat>, history: seq<int>, reserve: nat, load: int, speed: int, bestSpeed: int, bestThreads: nat)

  function Start(): State {
    State({}, [], 0, 0, 0, 0, 0)
  }

  function Sum(s: seq<int>): int {
    if s == [] then 0 else Sum(s[..|s| - 1]) + s[|s| - 1]
  }

  lemma SumSnoc(h: seq<int>, a: nat, i: nat)
    requires a <= i < |h|
    ensures Sum(h[a..i + 1]) == Sum(h[a..i]) + h[i]
  {
    assert h[a..i + 1][..i - a] == h[a..i];
  }

  /** The sums after `i` samples, none of which was below the minimum in the later half. */
  ghost predicate Summed(h: seq<int>, half: nat, upper: nat, i: nat, last: int, now: int)
    requires half <= upper <= |h| && i <= |h|
  {
    && last == Sum(h[0..if i < half then i else half])
    && now == Sum(h[upper..if i < upper then upper else i])
    && forall j :: upper <= j < i ==> h[j] >= MIN_LOAD
  }

  lemma SummedStep(h: seq<int>, half: nat, upper: nat, i: nat, last: int, now: int)
    requires half <= upper <= |h| && i < |h| && Summed(h, half, upper, i, last, now)
    ensures i < half ==> Summed(h, half, upper, i + 1, last + h[i], now)
    ensures i >= upper && h[i] >= MIN_LOAD ==> Summed(h, half, upper, i + 1, last, now + h[i])
  {
    if i < half {
      SumSnoc(h, 0, i);
    } else if i >= upper {
      SumSnoc(h, upper, i);
    }
  }

  function Recorded(history: seq<int>, load: int): seq<int> {
    (if |history| == MAX_FEEDBACK then history[1..] else history) + [load]
  }

  /** Every sample of the later half is a real load, and the later half is no lower than the earlier one;
      a sample in the middle belongs to neither half. */
  predicate Rising(h: seq<int>) {
    && (forall i :: (|h| + 1) / 2 <= i < |h| ==> h[i] >= MIN_LOAD)
    && Sum(h[..|h| / 2]) <= Sum(h[(|h| + 1) / 2..])
  }

  lemma SummedUp(h: seq<int>, half: nat, upper: nat, last: int, now: int)
    requires half == |h| / 2 && upper == (|h| + 1) / 2 && Summed(h, half, upper, |h|, last, now)
    ensures Rising(h) <==> last <= now
  {
    assert h[upper..|h|] == h[upper..] && h[0..half] == h[..half];
  }

  /** The state after a check, before the decision sets the reserve. */
  function Sampled(s: State): State {
    var better := s.bestSpeed < s.speed;
    s.(history := Recorded(s.history, s.load), speed := 0,
       bestSpeed := if better then s.speed else s.bestSpeed,
       bestThreads := if better then |s.threads| else s.bestThreads)
  }

  predicate Wanted(s: State) {
    && s.reserve == 0 && |s.threads| <= MAX_THREAD && |Sampled(s).history| >= MIN_FEEDBACK
    && Sampled(s).bestThreads >= |s.threads| && Rising(Sampled(s).history)
  }

  function Checked(s: State): State {
    Sampled(s).(reserve := if s.reserve > 0 then s.reserve - 1 else if Wanted(s) then MAX_FEEDBACK else 0)
  }

  datatype Step = Increase(inc: int) | Decrease(dec: int) | Exit(id: nat) | Check | Create(id: nat)

  /** What load changes, thread exits, checks and new threads do to the controller. */
  function Stepped(s: State, step: Step): State {
    match step
    case Increase(inc) => s.(load := s.load + inc)
    case Decrease(dec) => s.(load := s.load - dec, speed := s.speed + dec)
    case Exit(id) => s.(threads := s.threads - {id})
    case Check => Checked(s)
    case Create(id) => s.(threads := s.threads + {id})
  }

  class Controller {
    var autoThreads: set<nat>
    var loadHistory: seq<int>
    var reserve: nat
    var currentLoad: int
    var currentSpeed: int
    var bestSpeed: int
    var bestThreadsSize: nat

    ghost function View(): State
      reads this
    {
      State(autoThreads, loadHistory, reserve, currentLoad, currentSpeed, bestSpeed, bestThreadsSize)
    }

    constructor ()
      ensures View() == Start()
    {
      autoThreads, loadHistory, reserve := {}, [], 0;
      currentLoad, currentSpeed, bestSpeed, bestThreadsSize := 0, 0, 0, 0;
    }

    method ExitAutoThread(id: nat)
      modifies this`autoThreads
      ensures View() == Stepped(old(View()), Exit(id))
    {
      autoThreads := autoThreads - {id};
    }

    method IncreaseLoad(inc: int)
      modifies this`currentLoad
      ensures View() == Stepped(old(View()), Increase(inc))
    {
      currentLoad := currentLoad + inc;
    }

    method DecreaseLoad(dec: int)
      modifies this`currentLoad, this`currentSpeed
      ensures View() == Stepped(old(View()), Decrease(dec))
    {
      currentLoad := currentLoad - dec;
      currentSpeed := currentSpeed + dec;
    }

    /** What `check_thread` does after a check that said yes. */
    method StartThread(id: nat)
      modifies this`autoThreads
      ensures View() == Stepped(old(View()), Create(id))
    {
      autoThreads := autoThreads + {id};
    }

    /** The summing loop of `check_auto_create`. */
    method LoadRises() returns (rises: bool)
      ensures rises == Rising(loadHistory)
    {
      var h := loadHistory;
      var n, last, now := |h|, 0, 0;
      var half: nat, upper: nat := n / 2, (n + 1) / 2;
      for i := 0 to n
        invariant Summed(h, half, upper, i, last, now)
      {
        if i < half {
          SummedStep(h, half, upper, i, last, now);
          last := last + h[i];
        } else if i >= upper {
          if h[i] < MIN_LOAD {
            return false;
          }
          SummedStep(h, half, upper, i, last, now);
          now := now + h[i];
        }
      }
      SummedUp(h, half, upper, last, now);
      return last <= now;
    }

    /** `check_auto_create`. */
    method CheckAutoCreate() returns (create: bool)
      modifies this`loadHistory, this`reserve, this`currentSpeed, this`bestSpeed, this`bestThreadsSize
      ensures create == Wanted(old(View())) && View() == Stepped(old(View()), Check)
    {
      if |loadHistory| == MAX_FEEDBACK {
        loadHistory := loadHistory[1..];
      }
      loadHistory := loadHistory + [currentLoad];
      if bestSpeed < currentSpeed {
        bestSpeed := currentSpeed;
        bestThreadsSize := |autoThreads|;
      }
      currentSpeed := 0;
      if reserve > 0 {
        reserve := reserve - 1;
        return false;
      }
      if |autoThreads| > MAX_THREAD || |loadHistory| < MIN_FEEDBACK || bestThreadsSize < |autoThreads| {
        return false;
      }
      create := LoadRises();
      if create {
        reserve := MAX_FEEDBACK;
      }
    }

    /** Any one of the operations above; whether it was a check that said yes. */
    method Perform(step: Step) returns (yes: bool)
      modifies this
      ensures View() == Stepped(old(View()), step) && yes == (step.Check? && Wanted(old(View())))
    {
      yes := false;
      match step {
        case Increase(inc) => IncreaseLoad(inc);
        case Decrease(dec) => DecreaseLoad(dec);
        case Exit(id) => ExitAutoThread(id);
        case Create(id) => StartThread(id);
        case Check => yes := CheckAutoCreate();
      }
    }
  }

  // ------------------------------------------------------------ what a check decides

  lemma {:induction false} SumMono(a: seq<int>, b: seq<int>)
    requires |a| == |b| && forall i :: 0 <= i < |a| ==> a[i] <= b[i]
    ensures Sum(a) <= Sum(b)
    ensures a != [] && (forall i :: 0 <= i < |a| ==> a[i] < b[i]) ==> Sum(a) < Sum(b)
  {
    if a != [] {
      SumMono(a[..|a| - 1], b[..|b| - 1]);
      if |a| == 1 {
        assert a[..0] == [] && b[..0] == [];
      }
    }
  }

  /** Nothing but the load speaks against one more thread at the next check. */
  predicate Ready(s: State) {
    && s.reserve == 0 && |s.threads| <= 128 && |s.history| >= 7
    && (s.bestThreads >= |s.threads| || s.bestSpeed < s.speed)
  }

  /** No check says yes unless the controller is ready for one more thread. */
  lemma OnlyWhenReady(s: State)
    ensures Wanted(s) ==> Ready(s)
  {
  }

  /** The samples that the next check looks at: at most sixteen, the current load among them. */
  function Samples(s: State): seq<int> {
    Recorded(s.history, s.load)
  }

  /** Sample `i` lies in the earlier or in the later half of `h`. */
  predicate Earlier(h: seq<int>, i: nat) {
    2 * i + 1 < |h|
  }

  predicate Later(h: seq<int>, i: nat) {
    i < |h| <= 2 * i
  }

  /** A load that never falls and that has been real in the later half is answered with a thread. */
  lemma RisingLoadIsAnswered(s: State)
    requires Ready(s)
    requires forall i, j :: 0 <= i < j < |Samples(s)| ==> Samples(s)[i] <= Samples(s)[j]
    requires forall i :: 0 <= i && Later(Samples(s), i) ==> Samples(s)[i] >= 15
    ensures Wanted(s)
  {
    var h := Samples(s);
    HalvesRise(h);
    forall i | (|h| + 1) / 2 <= i < |h| ensures h[i] >= MIN_LOAD {
      assert Later(h, i);
    }
    assert Sampled(s).history == h && Rising(h);
  }

  lemma HalvesRise(h: seq<int>)
    requires forall i, j :: 0 <= i < j < |h| ==> h[i] <= h[j]
    ensures Sum(h[..|h| / 2]) <= Sum(h[(|h| + 1) / 2..])
  {
    var n, upper := |h| / 2, (|h| + 1) / 2;
    var lo, hi := h[..n], h[upper..];
    forall i | 0 <= i < n ensures lo[i] <= hi[i] {
      assert lo[i] == h[i] && hi[i] == h[upper + i];
    }
    SumMono(lo, hi);
  }

  /** A load whose later samples are all below the earlier ones is not. */
  lemma FallingLoadIsNot(s: State)
    requires forall i, j :: 0 <= i && Earlier(Samples(s), i) && 0 <= j && Later(Samples(s), j) ==> Samples(s)[j] < Samples(s)[i]
    ensures !Wanted(s)
  {
    var h := Samples(s);
    if |h| >= 2 {
      HalvesFall(h);
    }
    assert Sampled(s).history == h;
  }

  lemma HalvesFall(h: seq<int>)
    requires |h| >= 2 && forall i, j :: 0 <= i && Earlier(h, i) && 0 <= j && Later(h, j) ==> h[j] < h[i]
    ensures Sum(h[(|h| + 1) / 2..]) < Sum(h[..|h| / 2])
  {
    var n, upper := |h| / 2, (|h| + 1) / 2;
    var lo, hi := h[..n], h[upper..];
    forall i | 0 <= i < n ensures hi[i] < lo[i] {
      assert Earlier(h, i) && Later(h, upper + i);
      assert lo[i] == h[i] && hi[i] == h[upper + i];
    }
    SumMono(hi, lo);
  }

  /** One later sample that is no real load stands against it. */
  lemma IdleSampleRefuses(s: State, i: nat)
    requires Later(Samples(s), i) && Samples(s)[i] < 15
    ensures !Wanted(s)
  {
  }

  /** More load later or less load earlier never turns a yes into a no. */
  lemma MoreLoadKeepsYes(s: State, s': State)
    requires Wanted(s) && Ready(s') && |Samples(s')| == |Samples(s)|
    requires forall i :: 0 <= i && Earlier(Samples(s), i) ==> Samples(s')[i] <= Samples(s)[i]
    requires forall i :: 0 <= i && Later(Samples(s), i) ==> Samples(s)[i] <= Samples(s')[i]
    ensures Wanted(s')
  {
    var h, h' := Samples(s), Samples(s');
    assert Sampled(s).history == h && Sampled(s').history == h';
    HalvesCompare(h, h');
    forall i | (|h| + 1) / 2 <= i < |h| ensures h[i] <= h'[i] {
      assert Later(h, i);
    }
  }

  lemma HalvesCompare(h: seq<int>, h': seq<int>)
    requires |h'| == |h|
    requires forall i :: 0 <= i && Earlier(h, i) ==> h'[i] <= h[i]
    requires forall i :: 0 <= i && Later(h, i) ==> h[i] <= h'[i]
    ensures Sum(h'[..|h| / 2]) <= Sum(h[..|h| / 2]) && Sum(h[(|h| + 1) / 2..]) <= Sum(h'[(|h| + 1) / 2..])
  {
    var half, upper := |h| / 2, (|h| + 1) / 2;
    forall i | 0 <= i < half ensures h'[..half][i] <= h[..half][i] {
      assert Earlier(h, i);
    }
    SumMono(h'[..half], h[..half]);
    forall i | 0 <= i < |h| - upper ensures h[upper..][i] <= h'[upper..][i] {
      assert Later(h, upper + i);
    }
    SumMono(h[upper..], h'[upper..]);
  }

  // ------------------------------------------------------------ runs

  /** `pending`: a check said yes and the thread is not started yet; `created` holds the numbers of the
      checks that said yes. */
  datatype System = System(s: State, pending: bool, checks: nat, created: seq<nat>)

  function Init(): System {
    System(Start(), false, 0, [])
  }

  /** The checking thread starts the new worker before it checks again. */
  predicate Enabled(y: System, step: Step) {
    match step
    case Check => !y.pending
    case Create(_) => y.pending
    case _ => true
  }

  function Apply(y: System, step: Step): System {
    var yes := step.Check? && Wanted(y.s);
    System(Stepped(y.s, step),
           if step.Check? then yes else y.pending && !step.Create?,
           if step.Check? then y.checks + 1 else y.checks,
           if yes then y.created + [y.checks + 1] else y.created)
  }

  function Front(steps: seq<Step>): seq<Step>
    requires steps != []
  {
    steps[..|steps| - 1]
  }

  ghost predicate Runs(y: System, steps: seq<Step>)
    decreases |steps|
  {
    steps == [] || (Runs(y, Front(steps)) && Enabled(Final(y, Front(steps)), steps[|steps| - 1]))
  }

  function Final(y: System, steps: seq<Step>): System
    decreases |steps|
  {
    if steps == [] then y else Apply(Final(y, Front(steps)), steps[|steps| - 1])
  }

  /** The last creation lies as many checks back as have been taken off the reserve. */
  ghost predicate Inv(y: System) {
    && |y.s.threads| <= (if y.pending then MAX_THREAD else MAX_THREAD + 1)
    && |y.s.history| == (if y.checks < MAX_FEEDBACK then y.checks else MAX_FEEDBACK)
    && y.s.reserve <= MAX_FEEDBACK
    && (y.created == [] ==> y.s.reserve == 0)
    && (y.created != [] ==> y.created[|y.created| - 1] + MAX_FEEDBACK - y.s.reserve <= y.checks)
    && (forall i :: 0 <= i < |y.created| ==> MIN_FEEDBACK + 17 * i <= y.created[i])
    && (forall i, j :: 0 <= i < j < |y.created| ==> y.created[i] + 17 * (j - i) <= y.created[j])
  }

  lemma StepKeepsInv(y: System, step: Step)
    requires Inv(y) && Enabled(y, step)
    ensures Inv(Apply(y, step))
  {
  }

  lemma {:induction false} RunKeepsInv(y: System, steps: seq<Step>)
    requires Inv(y) && Runs(y, steps)
    ensures Inv(Final(y, steps))
    decreases |steps|
  {
    if steps != [] {
      RunKeepsInv(y, Front(steps));
      StepKeepsInv(Final(y, Front(steps)), steps[|steps| - 1]);
    }
  }

  /** Over any run of load changes, thread exits and checks: creations are at least 17 checks apart, n
      checks create at most (n + 9) / 17 threads, at most 129 of them exist, and the history is bounded. */
  lemma RateBound(steps: seq<Step>)
    requires Runs(Init(), steps)
    ensures var y := Final(Init(), steps);
      && |y.created| <= (y.checks + 9) / 17
      && (forall i :: 0 < i < |y.created| ==> y.created[i - 1] + 17 <= y.created[i])
      && |y.s.threads| <= 129 && |y.s.history| <= 16
  {
    RunKeepsInv(Init(), steps);
    var y := Final(Init(), steps);
    if y.created != [] {
      assert MIN_FEEDBACK + 17 * (|y.created| - 1) <= y.created[|y.created| - 1];
    }
    forall i | 0 < i < |y.created| ensures y.created[i - 1] + 17 <= y.created[i] {
      assert y.created[i - 1] + 17 * (i - (i - 1)) <= y.created[i];
    }
  }

  /** The methods of the controller, called as a run says, go through the states of the run; `created` numbers the
      checks that said yes. */
  method Drive(steps: seq<Step>) returns (c: Controller, created: seq<nat>)
    requires Runs(Init(), steps)
    ensures c.View() == Final(Init(), steps).s && created == Final(Init(), steps).created
  {
    c := new Controller();
    created := [];
    var checks := 0;
    ghost var y := Init();
    for i := 0 to |steps|
      invariant fresh(c) && c.View() == y.s && created == y.created && checks == y.checks && y == Final(Init(), steps[..i])
    {
      assert Front(steps[..i + 1]) == steps[..i];
      var yes := c.Perform(steps[i]);
      checks := if steps[i].Check? then checks + 1 else checks;
      created := if yes then created + [checks] else created;
      y := Apply(y, steps[i]);
    }
    assert steps[..|steps|] == steps;
  }

  // ------------------------------------------------------------ what the controller knows

  /** Increases less decreases. */
  function Load(steps: seq<Step>): int {
    if steps == [] then 0
    else
      var step, before := steps[|steps| - 1], Load(Front(steps));
      if step.Increase? then before + step.inc else if step.Decrease? then before - step.dec else before
  }

  /** The decreases since the last check. */
  function Speed(steps: seq<Step>): int {
    if steps == [] || steps[|steps| - 1].Check? then 0
    else Speed(Front(steps)) + if steps[|steps| - 1].Decrease? then steps[|steps| - 1].dec else 0
  }

  datatype Sample = Sample(load: int, speed: int, crew: nat)

  /** What the checks of a run have seen. */
  function Seen(steps: seq<Step>): seq<Sample> {
    if steps == [] then []
    else
      var front := Front(steps);
      if steps[|steps| - 1].Check? then Seen(front) + [Sample(Load(front), Speed(front), |Final(Init(), front).s.threads|)]
      else Seen(front)
  }

  /** Over every run load and speed are what the steps add up to. */
  lemma {:induction false} LoadIsBalance(steps: seq<Step>)
    ensures Final(Init(), steps).s.load == Load(steps) && Final(Init(), steps).s.speed == Speed(steps)
  {
    if steps != [] {
      LoadIsBalance(Front(steps));
      assert Final(Init(), steps).s == Stepped(Final(Init(), Front(steps)).s, steps[|steps| - 1]);
    }
  }

  /** The history holds the loads of the last sixteen samples. */
  ghost predicate Recent(history: seq<int>, seen: seq<Sample>) {
    && |history| == (if |seen| < 16 then |seen| else 16)
    && forall i :: 0 <= i < |history| ==> history[i] == seen[|seen| - |history| + i].load
  }

  lemma RecordedRecent(history: seq<int>, seen: seq<Sample>, x: Sample)
    requires Recent(history, seen)
    ensures Recent(Recorded(history, x.load), seen + [x])
  {
  }

  /** Over every run the history are the loads at the last sixteen checks. */
  lemma {:induction false} HistoryIsRecent(steps: seq<Step>)
    ensures Recent(Final(Init(), steps).s.history, Seen(steps))
  {
    if steps != [] {
      var front := Front(steps);
      HistoryIsRecent(front);
      LoadIsBalance(front);
      var s := Final(Init(), front).s;
      RecordedRecent(s.history, Seen(front), Sample(s.load, s.speed, |s.threads|));
    }
  }

  /** `best` is the highest speed that a check has seen, if any was positive, and `crew` the number of threads when it
      was first seen. */
  ghost predicate IsBest(seen: seq<Sample>, best: int, crew: nat) {
    && (forall i :: 0 <= i < |seen| ==> seen[i].speed <= best)
    && if forall i :: 0 <= i < |seen| ==> seen[i].speed <= 0 then best == 0 && crew == 0
       else exists i :: 0 <= i < |seen| && seen[i].speed == best && seen[i].crew == crew && forall j :: 0 <= j < i ==> seen[j].speed < best
  }

  lemma BestAfter(seen: seq<Sample>, best: int, crew: nat, x: Sample)
    requires IsBest(seen, best, crew)
    ensures if best < x.speed then IsBest(seen + [x], x.speed, x.crew) else IsBest(seen + [x], best, crew)
  {
    var seen' := seen + [x];
    assert seen'[|seen|] == x;
    if exists i :: 0 <= i < |seen| && seen[i].speed > 0 {
      var i :| 0 <= i < |seen| && seen[i].speed == best && seen[i].crew == crew && forall j :: 0 <= j < i ==> seen[j].speed < best;
      assert seen'[i] == seen[i];
    }
  }

  /** Over every run the best speed and the threads that went with it are those of the check that saw it first. */
  lemma {:induction false} BestIsRemembered(steps: seq<Step>)
    ensures IsBest(Seen(steps), Final(Init(), steps).s.bestSpeed, Final(Init(), steps).s.bestThreads)
  {
    if steps != [] {
      var front := Front(steps);
      BestIsRemembered(front);
      LoadIsBalance(front);
      var s := Final(Init(), front).s;
      BestAfter(Seen(front), s.bestSpeed, s.bestThreads, Sample(s.load, s.speed, |s.threads|));
    }
  }

  // ------------------------------------------------------------ the rate is reached

  lemma OneMore(y: System, steps: seq<Step>, step: Step)
    requires Runs(y, steps) && Enabled(Final(y, steps), step)
    ensures Runs(y, steps + [step]) && Final(y, steps + [step]) == Apply(Final(y, steps), step)
  {
    assert Front(steps + [step]) == steps;
  }

  function Constant(n: nat): (r: seq<int>)
    ensures |r| == n && forall i :: 0 <= i < n ==> r[i] == MIN_LOAD
  {
    seq(n, _ => MIN_LOAD)
  }

  lemma {:induction false} SumConstant(h: seq<int>)
    requires forall i :: 0 <= i < |h| ==> h[i] == MIN_LOAD
    ensures Sum(h) == 15 * |h|
  {
    if h != [] {
      SumConstant(h[..|h| - 1]);
    }
  }

  lemma ConstantRises(n: nat)
    ensures Rising(Constant(n))
  {
    var h := Constant(n);
    SumConstant(h[..n / 2]);
    SumConstant(h[(n + 1) / 2..]);
  }

  /** The reserve and the number of creations after `n` checks of the steady run. */
  function SteadyReserve(n: nat): nat {
    if n < 8 then 0 else 16 - (n - 8) % 17
  }

  function Created(n: nat): nat {
    (n + 9) / 17
  }

  lemma SteadyArithmetic(n: nat)
    ensures SteadyReserve(n) > 0 ==> SteadyReserve(n + 1) == SteadyReserve(n) - 1 && Created(n + 1) == Created(n)
    ensures SteadyReserve(n) == 0 && n < 7 ==> SteadyReserve(n + 1) == 0 && Created(n + 1) == Created(n)
    ensures SteadyReserve(n) == 0 && n >= 7 ==> SteadyReserve(n + 1) == 16 && Created(n + 1) == Created(n) + 1
  {
  }

  /** The state after `n` checks under a constant load, when every new thread exits at once. */
  ghost predicate Steady(y: System, n: nat) {
    && y.s == State({}, Constant(if n < 16 then n else 16), SteadyReserve(n), MIN_LOAD, 0, 0, 0)
    && !y.pending && y.checks == n && |y.created| == Created(n)
  }

  /** What one more check of the steady run does. */
  lemma SteadyCheck(y: System, n: nat)
    requires Steady(y, n)
    ensures var y' := Apply(y, Check);
      Steady(y'.(pending := false), n + 1)
  {
    var h := Recorded(y.s.history, MIN_LOAD);
    assert h == Constant(if n + 1 < 16 then n + 1 else 16);
    ConstantRises(|h|);
    SteadyArithmetic(n);
  }

  /** The bound is exact: for every n some run with n checks creates (n + 9) / 17 threads. */
  lemma {:induction false} RateIsReached(n: nat) returns (steps: seq<Step>, y: System)
    ensures Runs(Init(), steps) && y == Final(Init(), steps) && Steady(y, n)
    ensures y.checks == n && |y.created| == (n + 9) / 17
  {
    if n == 0 {
      steps := [] + [Increase(MIN_LOAD)];
      OneMore(Init(), [], Increase(MIN_LOAD));
      y := Apply(Init(), Increase(MIN_LOAD));
    } else {
      steps, y := RateIsReached(n - 1);
      SteadyCheck(y, n - 1);
      steps, y := CheckOnce(steps, y);
    }
  }

  /** A check, and a new thread that exits at once if the check said yes. */
  lemma CheckOnce(before: seq<Step>, y: System) returns (steps: seq<Step>, y': System)
    requires Runs(Init(), before) && y == Final(Init(), before) && !y.pending && y.s.threads == {}
    ensures Runs(Init(), steps) && y' == Final(Init(), steps) && y' == Apply(y, Check).(pending := false)
  {
    OneMore(Init(), before, Check);
    steps, y' := before + [Check], Apply(y, Check);
    if Wanted(y.s) {
      OneMore(Init(), steps, Create(0));
      steps, y' := steps + [Create(0)], Apply(y', Create(0));
      OneMore(Init(), steps, Exit(0));
      steps, y' := steps + [Exit(0)], Apply(y', Exit(0));
      assert y'.s.threads == {};
    }
  }
}
