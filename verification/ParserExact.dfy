/** The cutting of the input is immaterial exactly when no field is disturbed while it has pending bytes. */
module ParserExact {
  import opened Basics
  import opened Pages
  import opened Parser
  import opened ParserTheorems

  // ------------------------------------------------------------ what a disturbed field loses

  /** The bytes in a log, and a weight in which an event counts the bytes before it. */
  function Count(log: seq<Item>): nat {
    if log == [] then 0 else Count(log[..|log| - 1]) + if log[|log| - 1].Byte? then 1 else 0
  }

  function Weight(log: seq<Item>): nat {
    if log == [] then 0 else Weight(log[..|log| - 1]) + if log[|log| - 1].Byte? then 1 else Count(log[..|log| - 1])
  }

  lemma WeighSnoc(log: seq<Item>, x: Item)
    ensures Count(log + [x]) == Count(log) + if x.Byte? then 1 else 0
    ensures Weight(log + [x]) == Weight(log) + if x.Byte? then 1 else Count(log)
  {
  }

  lemma {:induction false} WeighBytes(log: seq<Item>, s: seq<byte>)
    ensures Count(log + Bytes(s)) == Count(log) + |s| && Weight(log + Bytes(s)) == Weight(log) + |s|
  {
    if s == [] {
      assert log + Bytes(s) == log;
    } else {
      var n := |s| - 1;
      WeighBytes(log, s[..n]);
      WeighSnoc(log + Bytes(s[..n]), Byte(s[n]));
      assert log + Bytes(s) == log + Bytes(s[..n]) + [Byte(s[n])];
    }
  }

  /** The bytes between the mark and the cursor. */
  function Pending(slot: Slot, p: nat): nat {
    if slot.mark.At? && slot.mark.pos <= p then p - slot.mark.pos else 0
  }

  /** Log `a` with `pending` more bytes is no heavier than `b`, and lighter if something was lost. */
  ghost predicate Lighter(a: seq<Item>, b: seq<Item>, pending: nat, lost: bool) {
    Count(a) + pending <= Count(b) && Weight(a) + pending + (if lost then 1 else 0) <= Weight(b)
  }

  /** Without a cut the field never delivers more than the stream, and less once it has lost something. */
  ghost predicate Behind(slot: Slot, w: Flow, seg: seq<byte>, p: nat, lost: bool) {
    && SlotOk(slot, seg, p) && p <= |seg| && !slot.failed && w.open == slot.mark.At?
    && (w.open ==> slot.size == 0 && w.size == Pending(slot, p) <= MAX_FIELD_SIZE)
    && Lighter(slot.got, w.got, Pending(slot, p), lost)
  }

  predicate Upset(w: Flow, f: Field, a: Action) {
    Disturbs(f, a) && w.open && w.size > 0
  }

  lemma EmitBehind(slot: Slot, w: Flow, seg: seq<byte>, p: nat, lost: bool)
    requires Behind(slot, w, seg, p, lost)
    ensures Behind(Callback(slot, seg, p).(mark := Closed, size := 0), w.(open := false, size := 0), seg, p, lost)
  {
    if slot.mark.At? {
      WeighBytes(slot.got, seg[slot.mark.pos..p]);
    }
  }

  lemma EventBehind(slot: Slot, w: Flow, seg: seq<byte>, p: nat, lost: bool, x: Item, slot': Slot, w': Flow)
    requires Behind(slot, w, seg, p, lost) && !x.Byte?
    requires slot' == slot.(got := slot.got + [x]) && w' == w.(got := w.got + [x])
    ensures Behind(slot', w', seg, p, lost || (w.open && w.size > 0))
  {
  }

  /** Closing a field without delivering it loses what is pending. */
  lemma CloseBehind(slot: Slot, w: Flow, seg: seq<byte>, p: nat, lost: bool)
    requires Behind(slot, w, seg, p, lost)
    ensures Behind(slot.(mark := Closed), w.(open := false, size := 0), seg, p, lost)
  {
  }

  lemma ActBehind(slot: Slot, w: Flow, f: Field, a: Action, seg: seq<byte>, p: nat, lost: bool)
    requires Behind(slot, w, seg, p, lost)
    ensures Behind(Act(slot, f, a, seg, p), FlowAct(w, f, a), seg, p, lost || Upset(w, f, a))
  {
    if a == Mark(f) {
      MarkBehind(slot, w, seg, p, lost);
    } else if a == Emit(f) {
      EmitBehind(slot, w, seg, p, lost);
    } else if a.Complete? {
      CompleteBehind(slot, w, seg, p, lost);
    } else if Reads(f, a) {
      EventBehind(slot, w, seg, p, lost, Line, slot.(got := slot.got + [Line]), w.(got := w.got + [Line]));
    } else {
      assert Act(slot, f, a, seg, p) == slot && FlowAct(w, f, a) == w;
    }
  }

  lemma MarkBehind(slot: Slot, w: Flow, seg: seq<byte>, p: nat, lost: bool)
    requires Behind(slot, w, seg, p, lost)
    ensures Behind(slot.(mark := At(p), size := 0), w.(open := true, size := 0), seg, p, lost || (w.open && w.size > 0))
  {
  }

  lemma CompleteBehind(slot: Slot, w: Flow, seg: seq<byte>, p: nat, lost: bool)
    requires Behind(slot, w, seg, p, lost)
    ensures Behind(slot.(mark := Closed, got := slot.got + [Done]), w.(open := false, size := 0, got := w.got + [Done]), seg, p,
                   lost || (w.open && w.size > 0))
  {
    var slot', w' := slot.(got := slot.got + [Done]), w.(got := w.got + [Done]);
    EventBehind(slot, w, seg, p, lost, Done, slot', w');
    CloseBehind(slot', w', seg, p, lost || (w.open && w.size > 0));
  }

  lemma {:induction false} ActsBehind(slot: Slot, w: Flow, f: Field, acts: seq<Action>, seg: seq<byte>, p: nat, lost: bool)
    requires Behind(slot, w, seg, p, lost)
    ensures Behind(Acts(slot, f, acts, seg, p), FlowActs(w, f, acts), seg, p, lost || !Calm(w, f, acts))
    decreases |acts|
  {
    if acts != [] {
      ActBehind(slot, w, f, acts[0], seg, p, lost);
      ActsBehind(Act(slot, f, acts[0], seg, p), FlowAct(w, f, acts[0]), f, acts[1..], seg, p, lost || Upset(w, f, acts[0]));
    }
  }

  lemma PassBehind(slot: Slot, w: Flow, seg: seq<byte>, p: nat, lost: bool)
    requires Behind(slot, w, seg, p, lost) && p < |seg| && !Pass(w, seg[p]).over
    ensures Behind(slot, Pass(w, seg[p]), seg, p + 1, lost)
  {
  }

  lemma {:induction false} PassesOver(w: Flow, seg: seq<byte>, p: nat, q: nat)
    requires p <= q <= |seg| && w.over
    ensures Passes(w, seg, p, q).over
    decreases q
  {
    if p < q {
      PassesOver(w, seg, p, q - 1);
    }
  }

  lemma {:induction false} PassesBehind(slot: Slot, w: Flow, seg: seq<byte>, p: nat, q: nat, lost: bool)
    requires Behind(slot, w, seg, p, lost) && p <= q <= |seg| && !Passes(w, seg, p, q).over
    ensures Behind(slot, Passes(w, seg, p, q), seg, q, lost)
    decreases q
  {
    if p < q {
      PassesBehind(slot, w, seg, p, q - 1, lost);
      PassBehind(slot, Passes(w, seg, p, q - 1), seg, q - 1, lost);
    }
  }

  // ------------------------------------------------------------ the run without a cut

  ghost predicate Lags<S(!new)>(st: Parser<S>, s: Stream<S>, seg: seq<byte>, lost: bool) {
    && |st.slots| == 6 && |s.flows| == 6 && st.pos <= |seg| && !st.status.Failed?
    && st.cs == s.cs && st.eat == s.eat && st.status == s.status
    && (forall f :: 0 <= f < 6 ==> Behind(st.slots[f], s.flows[f], seg, st.pos, false))
    && (lost ==> exists f :: 0 <= f < 6 && Behind(st.slots[f], s.flows[f], seg, st.pos, true))
  }

  lemma GoLags<S(!new)>(m: Machine<S>, st: Parser<S>, s: Stream<S>, seg: seq<byte>, lost: bool)
    requires st.pos < |seg| && st.status.Running? && st.eat == 0 && m(st.cs, seg[st.pos]).Go?
    requires Ok(st, seg) && Lags(st, s, seg, lost) && !Fails(Feed(m, s, seg[st.pos]))
    ensures Lags(Turn(m, st, seg), Feed(m, s, seg[st.pos]), seg, lost || !CalmByte(m, s, seg[st.pos]))
    ensures Turn(m, st, seg).pos == st.pos + 1
  {
    var r, s' := Turn(m, st, seg), Feed(m, s, seg[st.pos]);
    var acts := m(st.cs, seg[st.pos]).acts;
    forall f, b | 0 <= f < 6 && Behind(st.slots[f], s.flows[f], seg, st.pos, b)
      ensures Behind(r.slots[f], s'.flows[f], seg, st.pos + 1, b || !Calm(s.flows[f], f, acts))
    {
      assert !s'.flows[f].over;
      ActsBehind(st.slots[f], s.flows[f], f, acts, seg, st.pos, b);
      PassBehind(Acts(st.slots[f], f, acts, seg, st.pos), FlowActs(s.flows[f], f, acts), seg, st.pos, b || !Calm(s.flows[f], f, acts));
    }
    forall f | 0 <= f < 6 ensures Behind(r.slots[f], s'.flows[f], seg, st.pos + 1, false) {
      var _ := Behind(st.slots[f], s.flows[f], seg, st.pos, false);
    }
  }

  lemma EatLags<S(!new)>(st: Parser<S>, s: Stream<S>, seg: seq<byte>, next: S, n: nat, r: Parser<S>, lost: bool)
    requires Lags(st, s, seg, lost) && st.pos <= r.pos <= |seg| && r.pos - st.pos <= n
    requires r.cs == next && r.eat == n - (r.pos - st.pos) && r.slots == st.slots && r.status == st.status
    requires !Fails(Eaten(s, next, n, seg, st.pos, r.pos))
    ensures Lags(r, Eaten(s, next, n, seg, st.pos, r.pos), seg, lost)
  {
    var s' := Eaten(s, next, n, seg, st.pos, r.pos);
    forall f, b | 0 <= f < 6 && Behind(st.slots[f], s.flows[f], seg, st.pos, b)
      ensures Behind(r.slots[f], s'.flows[f], seg, r.pos, b)
    {
      assert !s'.flows[f].over;
      PassesBehind(st.slots[f], s.flows[f], seg, st.pos, r.pos, b);
    }
    forall f | 0 <= f < 6 ensures Behind(r.slots[f], s'.flows[f], seg, r.pos, false) {
      var _ := Behind(st.slots[f], s.flows[f], seg, st.pos, false);
    }
  }

  ghost predicate CalmUpTo<S(!new)>(m: Machine<S>, s0: Stream<S>, seg: seq<byte>, n: nat)
    requires |s0.flows| == 6 && n <= |seg|
  {
    forall i :: 0 <= i < n ==> CalmByte(m, Fed(m, s0, seg, i), seg[i])
  }

  /** Chunk data disturbs nothing. */
  lemma CalmChunk<S(!new)>(m: Machine<S>, s0: Stream<S>, seg: seq<byte>, s: Stream<S>, next: S, n: nat, p: nat, q: nat)
    requires |s0.flows| == 6 && p < q <= |seg| && CalmUpTo(m, s0, seg, p) && s == Fed(m, s0, seg, p)
    requires s.status.Running? && s.eat == 0 && 0 < q - p <= n && m(s.cs, seg[p]) == Eat(next, n)
    ensures CalmUpTo(m, s0, seg, q)
  {
    forall i | p < i < q ensures CalmByte(m, Fed(m, s0, seg, i), seg[i]) {
      FedEats(m, s0, seg, s, next, n, p, i);
      assert Fed(m, s0, seg, i).eat > 0;
    }
    assert CalmByte(m, s, seg[p]);
  }

  lemma EatTurnLags<S(!new)>(m: Machine<S>, st: Parser<S>, s0: Stream<S>, seg: seq<byte>, s: Stream<S>, r: Parser<S>)
    requires |s0.flows| == 6 && Ok(st, seg) && st.status.Running? && st.pos < |seg| && !Fails(FeedAll(m, s0, seg))
    requires s == Fed(m, s0, seg, st.pos) && Lags(st, s, seg, !CalmUpTo(m, s0, seg, st.pos))
    requires m(st.cs, seg[st.pos]).Eat? && r == Turn(m, st, seg)
    ensures Lags(r, Fed(m, s0, seg, r.pos), seg, !CalmUpTo(m, s0, seg, r.pos))
  {
    var Eat(next, n) := m(st.cs, seg[st.pos]);
    FedLater(m, s0, seg, r.pos, |seg|);
    FedEats(m, s0, seg, s, next, n, st.pos, r.pos);
    var calm := CalmUpTo(m, s0, seg, st.pos);
    EatLags(st, s, seg, next, n, r, !calm);
    if calm {
      CalmChunk(m, s0, seg, s, next, n, st.pos, r.pos);
    }
  }

  lemma CalmNext<S(!new)>(m: Machine<S>, s0: Stream<S>, seg: seq<byte>, p: nat)
    requires |s0.flows| == 6 && p < |seg|
    ensures CalmUpTo(m, s0, seg, p + 1) <==> CalmUpTo(m, s0, seg, p) && CalmByte(m, Fed(m, s0, seg, p), seg[p])
  {
  }

  lemma TurnLags<S(!new)>(m: Machine<S>, st: Parser<S>, s0: Stream<S>, seg: seq<byte>, s: Stream<S>, r: Parser<S>)
    requires |s0.flows| == 6 && Ok(st, seg) && st.status.Running? && st.pos < |seg| && !Fails(FeedAll(m, s0, seg))
    requires s == Fed(m, s0, seg, st.pos) && Lags(st, s, seg, !CalmUpTo(m, s0, seg, st.pos)) && r == Turn(m, st, seg)
    ensures Lags(r, Fed(m, s0, seg, r.pos), seg, !CalmUpTo(m, s0, seg, r.pos))
  {
    NotRejected(m, s0, seg, st.pos);
    if m(st.cs, seg[st.pos]).Eat? {
      EatTurnLags(m, st, s0, seg, s, r);
    } else {
      GoTurnLags(m, st, s0, seg, s, st.pos + 1);
      assert Fed(m, s0, seg, st.pos + 1) == Feed(m, s, seg[st.pos]);
    }
  }

  lemma NotRejected<S(!new)>(m: Machine<S>, s0: Stream<S>, seg: seq<byte>, p: nat)
    requires |s0.flows| == 6 && p < |seg| && !Fails(FeedAll(m, s0, seg))
    ensures !Fails(Feed(m, Fed(m, s0, seg, p), seg[p]))
    ensures var s := Fed(m, s0, seg, p); s.status.Running? && s.eat == 0 ==> !m(s.cs, seg[p]).Reject?
  {
    FedLater(m, s0, seg, p + 1, |seg|);
  }

  lemma GoTurnLags<S(!new)>(m: Machine<S>, st: Parser<S>, s0: Stream<S>, seg: seq<byte>, s: Stream<S>, q: nat)
    requires |s0.flows| == 6 && Ok(st, seg) && st.status.Running? && st.pos < |seg| && m(st.cs, seg[st.pos]).Go? && q == st.pos + 1
    requires s == Fed(m, s0, seg, st.pos) && !Fails(Feed(m, s, seg[st.pos])) && Lags(st, s, seg, !CalmUpTo(m, s0, seg, st.pos))
    ensures Turn(m, st, seg).pos == q && Lags(Turn(m, st, seg), Feed(m, s, seg[st.pos]), seg, !CalmUpTo(m, s0, seg, q))
  {
    GoLags(m, st, s, seg, !CalmUpTo(m, s0, seg, st.pos));
    CalmNext(m, s0, seg, st.pos);
  }

  lemma {:induction false} TurnsLag<S(!new)>(m: Machine<S>, st: Parser<S>, s0: Stream<S>, seg: seq<byte>)
    requires |s0.flows| == 6 && Ok(st, seg) && !Fails(FeedAll(m, s0, seg)) && !st.status.Failed?
    requires Lags(st, Fed(m, s0, seg, st.pos), seg, !CalmUpTo(m, s0, seg, st.pos))
    ensures var r := Turns(m, st, seg); Lags(r, Fed(m, s0, seg, r.pos), seg, !CalmUpTo(m, s0, seg, r.pos))
    decreases |seg| - st.pos
  {
    if st.status.Running? && st.pos < |seg| {
      TurnLags(m, st, s0, seg, Fed(m, s0, seg, st.pos), Turn(m, st, seg));
      TurnsLag(m, Turn(m, st, seg), s0, seg);
    }
  }

  /** After the parser has stopped nothing is disturbed any more. */
  lemma CalmAfterStop<S(!new)>(m: Machine<S>, s0: Stream<S>, seg: seq<byte>, p: nat)
    requires |s0.flows| == 6 && p <= |seg| && CalmUpTo(m, s0, seg, p) && (p < |seg| ==> !Fed(m, s0, seg, p).status.Running?)
    ensures Disciplined(m, s0, seg)
  {
    forall i | 0 <= i < |seg| ensures CalmByte(m, Fed(m, s0, seg, i), seg[i]) {
      if p <= i {
        FedLater(m, s0, seg, p, i);
      }
    }
  }

  /** The end of the run: a field that has lost something has delivered something else. */
  lemma LostIsSeen(slot: Slot, w: Flow, seg: seq<byte>, p: nat)
    requires Behind(slot, w, seg, p, true)
    ensures Callback(slot, seg, p).got != w.got
  {
    if slot.mark.At? {
      WeighBytes(slot.got, seg[slot.mark.pos..p]);
    }
  }

  lemma InitialLags<S(!new)>(m: Machine<S>, cs: S, seg: seq<byte>)
    ensures var st := Enter(Initial(cs), seg); st.pos == 0 && st.status.Running? && Lags(st, Source(cs), seg, false)
  {
  }

  /** A run without a cut over an undisciplined input differs from the stream in some field. */
  lemma UncutDiffers<S(!new)>(m: Machine<S>, cs: S, input: seq<byte>)
    requires !Fails(FeedAll(m, Source(cs), input))
    ensures var r, s := Execute(m, Initial(cs), input), FeedAll(m, Source(cs), input);
      Disciplined(m, Source(cs), input) || exists f :: 0 <= f < 6 && r.slots[f].got != s.flows[f].got
  {
    var st, s0 := Enter(Initial(cs), input), Source(cs);
    InitialLags(m, cs, input);
    TurnsLag(m, st, s0, input);
    TurnsEnd(m, st, input);
    var r := Turns(m, st, input);
    var s := Fed(m, s0, input, r.pos);
    if CalmUpTo(m, s0, input, r.pos) {
      CalmAfterStop(m, s0, input, r.pos);
    } else {
      FedLater(m, s0, input, r.pos, |input|);
      var f :| 0 <= f < 6 && Behind(r.slots[f], s.flows[f], input, r.pos, true);
      LostIsSeen(r.slots[f], s.flows[f], input, r.pos);
      assert Leave(r, input).slots[f].got == Callback(r.slots[f], input, r.pos).got;
    }
  }

  // ------------------------------------------------------------ main results

  /** What a client of the parser can tell apart: failure, the state, the chunk data, and what each field received. */
  ghost predicate SameOutcome<S(!new)>(a: Parser<S>, b: Parser<S>)
    requires |a.slots| == 6 && |b.slots| == 6
  {
    && a.status == b.status
    && (!a.status.Failed? ==>
          && a.cs == b.cs && a.eat == b.eat && a.body == b.body && a.due == b.due
          && forall f :: 0 <= f < 6 ==> a.slots[f].got == b.slots[f].got && a.slots[f].mark.At? == b.slots[f].mark.At?)
  }

  lemma AgreeSame<S(!new)>(a: Parser<S>, b: Parser<S>, s: Stream<S>)
    requires Agree(a, s) && Agree(b, s)
    ensures SameOutcome(a, b)
  {
  }

  lemma InitialAgrees<S(!new)>(cs: S)
    ensures Agree(Initial(cs), Source(cs))
  {
  }

  /** On a disciplined input any two cuttings have the same outcome, and it is that of the stream: the same fields,
      the same chunk data and the same final state, or failure in both. */
  lemma CutsDoNotMatter<S(!new)>(m: Machine<S>, cs: S, cuts: seq<seq<byte>>, cuts': seq<seq<byte>>)
    requires Flat(cuts) == Flat(cuts') && Disciplined(m, Source(cs), Flat(cuts))
    ensures SameOutcome(Run(m, Initial(cs), cuts), Run(m, Initial(cs), cuts'))
    ensures Agree(Run(m, Initial(cs), cuts), FeedAll(m, Source(cs), Flat(cuts)))
  {
    InitialAgrees(cs);
    RunAgrees(m, Initial(cs), Source(cs), cuts);
    RunAgrees(m, Initial(cs), Source(cs), cuts');
    AgreeSame(Run(m, Initial(cs), cuts), Run(m, Initial(cs), cuts'), FeedAll(m, Source(cs), Flat(cuts)));
  }

  function Singles(input: seq<byte>): seq<seq<byte>> {
    seq(|input|, i requires 0 <= i < |input| => [input[i]])
  }

  lemma {:induction false} FlatSingles(input: seq<byte>)
    ensures Flat(Singles(input)) == input
  {
    if input != [] {
      FlatSingles(input[1..]);
      assert Singles(input)[1..] == Singles(input[1..]);
      assert input == [input[0]] + input[1..];
    }
  }

  ghost predicate CutFree<S(!new)>(m: Machine<S>, cs: S, input: seq<byte>) {
    forall cuts :: Flat(cuts) == input ==> SameOutcome(Run(m, Initial(cs), cuts), Run(m, Initial(cs), [input]))
  }

  lemma UncutSeen<S(!new)>(m: Machine<S>, cs: S, input: seq<byte>)
    requires !Fails(FeedAll(m, Source(cs), input))
    ensures Disciplined(m, Source(cs), input) || !SameOutcome(Run(m, Initial(cs), Singles(input)), Run(m, Initial(cs), [input]))
  {
    var s := FeedAll(m, Source(cs), input);
    var a, b := Run(m, Initial(cs), Singles(input)), Execute(m, Initial(cs), input);
    InitialAgrees(cs);
    FlatSingles(input);
    RunAgrees(m, Initial(cs), Source(cs), Singles(input));
    UncutDiffers(m, cs, input);
    assert Run(m, Initial(cs), [input]) == b by {
      assert [input][1..] == [];
    }
    if f :| 0 <= f < 6 && b.slots[f].got != s.flows[f].got {
      assert AgreeOn(a.slots[f], s.flows[f]);
    }
  }

  /** Exactly the disciplined inputs are parsed alike however they are cut. */
  lemma CutFreeExactlyWhenDisciplined<S(!new)>(m: Machine<S>, cs: S, input: seq<byte>)
    requires !Fails(FeedAll(m, Source(cs), input))
    ensures CutFree(m, cs, input) <==> Disciplined(m, Source(cs), input)
  {
    FlatOne([input]);
    if Disciplined(m, Source(cs), input) {
      forall cuts | Flat(cuts) == input ensures SameOutcome(Run(m, Initial(cs), cuts), Run(m, Initial(cs), [input])) {
        CutsDoNotMatter(m, cs, cuts, [input]);
      }
    } else {
      UncutSeen(m, cs, input);
      FlatSingles(input);
    }
  }

  /** An automaton that marks a header field at every byte. */
  function MarksAgain(cs: nat, b: byte): Move<nat> {
    Go(cs, [Mark(HEADER_FIELD)], false)
  }

  /** Marking a field again while it is open makes the outcome depend on the cutting: two bytes in one segment
      deliver the second only, and in two segments both. */
  lemma MarkingAgainDependsOnCuts(b: byte)
    ensures !CutFree(MarksAgain, 0, [b, b])
  {
    var m, s0, input := MarksAgain, Source(0 as nat), [b, b];
    var s1 := Fed(m, s0, input, 1);
    var s2 := Fed(m, s0, input, 2);
    assert s1 == Feed(m, s0, b) && s2 == Feed(m, s1, b);
    MarkedAgain(s0, b);
    MarkedAgain(s1, b);
    assert s1.flows[0].open && s1.flows[0].size == 1;
    var acts := m(s1.cs, b).acts;
    assert Disturbs(0, acts[0]) && !Calm(s1.flows[0], 0, acts);
    assert !CalmByte(m, Fed(m, s0, input, 1), input[1]);
    CutFreeExactlyWhenDisciplined(m, 0, input);
  }

  lemma MarkedAgain(s: Stream<nat>, b: byte)
    requires |s.flows| == 6 && s.status.Running? && s.eat == 0
    requires forall f :: 0 <= f < 6 ==> !s.flows[f].over && (s.flows[f].open ==> f == 0)
    ensures var s' := Feed(MarksAgain, s, b);
      && s'.status.Running? && s'.eat == 0 && s'.flows[0].open && s'.flows[0].size == 1
      && forall f :: 0 <= f < 6 ==> !s'.flows[f].over && (s'.flows[f].open ==> f == 0)
  {
    var acts := [Mark(HEADER_FIELD)];
    assert acts[1..] == [];
    forall f | 0 <= f < 6 ensures FlowActs(s.flows[f], f, acts) == FlowAct(s.flows[f], f, acts[0]) {
      assert FlowActs(FlowAct(s.flows[f], f, acts[0]), f, acts[1..]) == FlowAct(s.flows[f], f, acts[0]);
    }
  }
}
