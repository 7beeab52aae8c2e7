/** How the input is cut into segments does not matter to the parser, and exactly when it does. */
module ParserTheorems {
  import opened Basics
  import opened Pages
  import opened Parser

  // ------------------------------------------------------------ what the logs hold

  /** A header line is an event of the field and of the value and of nothing else; the end of a request is an event of all
      six, and closes them. Marking and emitting are no events. */
  lemma EventsLogged(w: Flow, f: Field, slot: Slot, seg: seq<byte>, p: nat)
    requires SlotOk(slot, seg, p) && p <= |seg|
    ensures FlowAct(w, f, HeaderLine) == w.(got := w.got + if f == 0 || f == 1 then [Line] else [])
    ensures Act(slot, f, HeaderLine, seg, p) == slot.(got := slot.got + if f == 0 || f == 1 then [Line] else [])
    ensures forall due :: FlowAct(w, f, Complete(due)).got == w.got + [Done] && !FlowAct(w, f, Complete(due)).open
    ensures forall due :: Act(slot, f, Complete(due), seg, p).got == slot.got + [Done] && Act(slot, f, Complete(due), seg, p).mark.Closed?
    ensures forall g :: FlowAct(w, f, Mark(g)).got == w.got && FlowAct(w, f, Emit(g)).got == w.got
  {
    assert w.got + [] == w.got && slot.got + [] == slot.got;
  }

  /** The byte concerns field `f` only as one of its bytes. */
  ghost predicate Quiet<S(!new)>(m: Machine<S>, s: Stream<S>, b: byte, f: Field) {
    && s.status.Running?
    && (s.eat == 0 ==> !m(s.cs, b).Reject?)
    && (s.eat == 0 && m(s.cs, b).Go? ==>
          forall i :: 0 <= i < |m(s.cs, b).acts| ==> Unconcerned(f, m(s.cs, b).acts[i]))
  }

  predicate Unconcerned(f: Field, a: Action) {
    match a
    case Mark(g) => f != g
    case Emit(g) => f != g
    case HeaderLine => f > 1
    case Complete(_) => false
  }

  /** The byte does action `a` only. */
  ghost predicate Does<S(!new)>(m: Machine<S>, s: Stream<S>, b: byte, a: Action) {
    s.status.Running? && s.eat == 0 && m(s.cs, b).Go? && m(s.cs, b).acts == [a]
  }

  lemma {:induction false} UnconcernedStays(w: Flow, f: Field, acts: seq<Action>)
    requires forall i :: 0 <= i < |acts| ==> Unconcerned(f, acts[i])
    ensures FlowActs(w, f, acts) == w
    decreases |acts|
  {
    if acts != [] {
      assert Unconcerned(f, acts[0]);
      UnconcernedStays(w, f, acts[1..]);
    }
  }

  lemma QuietPasses<S(!new)>(m: Machine<S>, s: Stream<S>, b: byte, f: Field)
    requires |s.flows| == 6 && Quiet(m, s, b, f)
    ensures Feed(m, s, b).flows[f] == Pass(s.flows[f], b)
  {
    if s.eat == 0 && m(s.cs, b).Go? {
      UnconcernedStays(s.flows[f], f, m(s.cs, b).acts);
    }
  }

  lemma DoesPasses<S(!new)>(m: Machine<S>, s: Stream<S>, b: byte, f: Field, a: Action)
    requires |s.flows| == 6 && Does(m, s, b, a)
    ensures Feed(m, s, b).flows[f] == Pass(FlowAct(s.flows[f], f, a), b)
  {
    assert [a][1..] == [];
    assert FlowActs(FlowAct(s.flows[f], f, a), f, []) == FlowAct(s.flows[f], f, a);
  }

  /** While a field is open, the bytes since its mark have been delivered. */
  lemma {:induction false} OpenSince<S(!new)>(m: Machine<S>, s: Stream<S>, input: seq<byte>, f: Field, i: nat, j: nat)
    requires |s.flows| == 6 && i < j <= |input| && Does(m, Fed(m, s, input, i), input[i], Mark(f))
    requires forall k :: i < k < j ==> Quiet(m, Fed(m, s, input, k), input[k], f)
    ensures var w, w' := Fed(m, s, input, i).flows[f], Fed(m, s, input, j).flows[f];
      w' == Flow(true, j - i, w.got + Bytes(input[i..j]), w.over || j - i > MAX_FIELD_SIZE)
    decreases j
  {
    var w := Fed(m, s, input, i).flows[f];
    if j == i + 1 {
      DoesPasses(m, Fed(m, s, input, i), input[i], f, Mark(f));
      assert Bytes(input[i..j]) == [Byte(input[i])];
    } else {
      OpenSince(m, s, input, f, i, j - 1);
      QuietPasses(m, Fed(m, s, input, j - 1), input[j - 1], f);
      OneByteMore(w.got, input, i, j);
    }
  }

  lemma OneByteMore(got: seq<Item>, input: seq<byte>, i: nat, j: nat)
    requires i < j <= |input|
    ensures got + Bytes(input[i..j - 1]) + [Byte(input[j - 1])] == got + Bytes(input[i..j])
  {
  }

  /** A field receives exactly the bytes from its mark up to where it is emitted, and has outgrown the limit exactly when
      these are more than 80 KiB. */
  lemma MarkedIsDelivered<S(!new)>(m: Machine<S>, s: Stream<S>, input: seq<byte>, f: Field, i: nat, j: nat)
    requires |s.flows| == 6 && i < j < |input| && Does(m, Fed(m, s, input, i), input[i], Mark(f))
    requires forall k :: i < k < j ==> Quiet(m, Fed(m, s, input, k), input[k], f)
    requires Does(m, Fed(m, s, input, j), input[j], Emit(f))
    ensures var w, w' := Fed(m, s, input, i).flows[f], Fed(m, s, input, j + 1).flows[f];
      && w'.got == w.got + Bytes(input[i..j]) && !w'.open
      && (w'.over <==> w.over || j - i > 80 * 1024)
  {
    OpenSince(m, s, input, f, i, j);
    DoesPasses(m, Fed(m, s, input, j), input[j], f, Emit(f));
  }

  /** The chunk data of a request ends with the request: every completed one, and nothing else, is an event of the body. */
  lemma {:induction false} EndsExactly(acts: seq<Action>, i: nat)
    requires i <= |acts|
    ensures Ends(acts) == Ends(acts[..i]) + Ends(acts[i..])
    ensures i < |acts| ==> Ends([acts[i]]) == if acts[i].Complete? then [Done] else []
    decreases i
  {
    if i < |acts| {
      assert [acts[i]][1..] == [];
    }
    if i == 0 {
      assert acts[..0] == [] && acts[0..] == acts;
    } else {
      EndsExactly(acts[1..], i - 1);
      assert acts[1..][..i - 1] == acts[..i][1..] && acts[1..][i - 1..] == acts[i..];
    }
  }

  /** Whether a body is due is what the last completed request says. */
  lemma {:induction false} DueIsLast(due: bool, acts: seq<Action>, i: nat)
    requires i <= |acts| && forall k :: i < k < |acts| ==> !acts[k].Complete?
    ensures i < |acts| && acts[i].Complete? ==> DueAfter(due, acts) == acts[i].due
    ensures i == |acts| && (forall k :: 0 <= k < |acts| ==> !acts[k].Complete?) ==> DueAfter(due, acts) == due
    decreases |acts|
  {
    if acts != [] {
      var due' := if acts[0].Complete? then acts[0].due else due;
      if i > 0 {
        DueIsLast(due', acts[1..], i - 1);
      } else {
        DueIsLast(due', acts[1..], |acts| - 1);
      }
    }
  }

  // ------------------------------------------------------------ one field

  /** The stream has delivered what the slot has delivered and what lies between its mark and the cursor. */
  ghost predicate Tracks(slot: Slot, w: Flow, seg: seq<byte>, p: nat) {
    && SlotOk(slot, seg, p) && p <= |seg| && !slot.failed
    && w.open == slot.mark.At?
    && if w.open then
         && slot.size <= MAX_FIELD_SIZE && w.size == slot.size + p - slot.mark.pos && w.over == (w.size > MAX_FIELD_SIZE)
         && w.got == slot.got + Bytes(seg[slot.mark.pos..p])
       else w.got == slot.got && !w.over
  }

  /** A slot that failed has outgrown the limit. */
  ghost predicate TracksOrFailed(slot: Slot, w: Flow, seg: seq<byte>, p: nat) {
    SlotOk(slot, seg, p) && p <= |seg| && if slot.failed then w.over else Tracks(slot, w, seg, p)
  }

  lemma NothingBetween(seg: seq<byte>, p: nat, got: seq<Item>)
    requires p <= |seg|
    ensures got + Bytes(seg[p..p]) == got
  {
  }

  lemma MarkTracks(slot: Slot, w: Flow, seg: seq<byte>, p: nat)
    requires TracksOrFailed(slot, w, seg, p) && (w.open ==> w.size == 0 || p == 0)
    ensures TracksOrFailed(slot.(mark := At(p), size := 0), w.(open := true, size := 0), seg, p)
  {
    NothingBetween(seg, p, slot.got);
  }

  lemma EmitTracks(slot: Slot, w: Flow, seg: seq<byte>, p: nat)
    requires TracksOrFailed(slot, w, seg, p)
    ensures TracksOrFailed(Callback(slot, seg, p).(mark := Closed, size := 0), w.(open := false, size := 0), seg, p)
  {
  }

  lemma EventTracks(slot: Slot, w: Flow, seg: seq<byte>, p: nat, x: Item)
    requires TracksOrFailed(slot, w, seg, p) && (w.open ==> w.size == 0 || p == 0)
    ensures TracksOrFailed(slot.(got := slot.got + [x]), w.(got := w.got + [x]), seg, p)
  {
    NothingBetween(seg, p, slot.got);
    NothingBetween(seg, p, slot.got + [x]);
  }

  lemma CompleteTracks(slot: Slot, w: Flow, seg: seq<byte>, p: nat)
    requires TracksOrFailed(slot, w, seg, p) && (w.open ==> w.size == 0 || p == 0)
    ensures TracksOrFailed(slot.(mark := Closed, got := slot.got + [Done]), w.(open := false, size := 0, got := w.got + [Done]), seg, p)
  {
    NothingBetween(seg, p, slot.got);
  }

  lemma ActTracks(slot: Slot, w: Flow, f: Field, a: Action, seg: seq<byte>, p: nat)
    requires TracksOrFailed(slot, w, seg, p) && (Disturbs(f, a) && w.open ==> w.size == 0 || p == 0)
    ensures TracksOrFailed(Act(slot, f, a, seg, p), FlowAct(w, f, a), seg, p)
  {
    if a == Mark(f) {
      MarkTracks(slot, w, seg, p);
    } else if a == Emit(f) {
      EmitTracks(slot, w, seg, p);
    } else if a.Complete? {
      CompleteTracks(slot, w, seg, p);
    } else if Reads(f, a) {
      EventTracks(slot, w, seg, p, Line);
    } else {
      assert Act(slot, f, a, seg, p) == slot && FlowAct(w, f, a) == w;
    }
  }

  lemma {:induction false} ActsTrack(slot: Slot, w: Flow, f: Field, acts: seq<Action>, seg: seq<byte>, p: nat)
    requires TracksOrFailed(slot, w, seg, p) && (Calm(w, f, acts) || p == 0)
    ensures TracksOrFailed(Acts(slot, f, acts, seg, p), FlowActs(w, f, acts), seg, p)
    decreases |acts|
  {
    if acts != [] {
      ActTracks(slot, w, f, acts[0], seg, p);
      ActsTrack(Act(slot, f, acts[0], seg, p), FlowAct(w, f, acts[0]), f, acts[1..], seg, p);
    }
  }

  lemma PassTracks(slot: Slot, w: Flow, seg: seq<byte>, p: nat)
    requires TracksOrFailed(slot, w, seg, p) && p < |seg|
    ensures TracksOrFailed(slot, Pass(w, seg[p]), seg, p + 1)
  {
  }

  // ------------------------------------------------------------ one segment

  ghost predicate Follows<S(!new)>(st: Parser<S>, s: Stream<S>, seg: seq<byte>) {
    && |st.slots| == 6 && |s.flows| == 6 && st.pos <= |seg| && !st.status.Failed?
    && st.cs == s.cs && st.eat == s.eat && st.body == s.body && st.due == s.due && st.status == s.status
    && forall f :: 0 <= f < 6 ==> Tracks(st.slots[f], s.flows[f], seg, st.pos)
  }

  lemma {:induction false} FedPrefix<S(!new)>(m: Machine<S>, s: Stream<S>, a: seq<byte>, b: seq<byte>, n: nat)
    requires |s.flows| == 6 && n <= |a|
    ensures Fed(m, s, a + b, n) == Fed(m, s, a, n)
  {
    if n > 0 {
      FedPrefix(m, s, a, b, n - 1);
    }
  }

  lemma {:induction false} FedConcat<S(!new)>(m: Machine<S>, s: Stream<S>, a: seq<byte>, b: seq<byte>, n: nat)
    requires |s.flows| == 6 && n <= |b|
    ensures Fed(m, s, a + b, |a| + n) == Fed(m, FeedAll(m, s, a), b, n)
  {
    if n == 0 {
      FedPrefix(m, s, a, b, |a|);
    } else {
      FedConcat(m, s, a, b, n - 1);
    }
  }

  /** A stream that has stopped stays as it is; a failure is never taken back. */
  lemma {:induction false} FedLater<S(!new)>(m: Machine<S>, s: Stream<S>, input: seq<byte>, p: nat, n: nat)
    requires |s.flows| == 6 && p <= n <= |input|
    ensures !Fed(m, s, input, p).status.Running? ==> Fed(m, s, input, n) == Fed(m, s, input, p)
    ensures Fails(Fed(m, s, input, p)) ==> Fails(Fed(m, s, input, n))
    decreases n
  {
    if p < n {
      FedLater(m, s, input, p, n - 1);
      FeedFails(m, Fed(m, s, input, n - 1), input[n - 1]);
    }
  }

  lemma {:induction false} FedTaken<S(!new)>(m: Machine<S>, s: Stream<S>, input: seq<byte>, n: nat)
    requires |s.flows| == 6 && n <= |input|
    ensures Fed(m, s, input, n).status.Running? ==> Fed(m, s, input, n).taken == s.taken + n
    ensures s.taken <= Fed(m, s, input, n).taken <= s.taken + n
  {
    if n > 0 {
      FedTaken(m, s, input, n - 1);
    }
  }

  lemma {:induction false} TakenGrows<S(!new)>(m: Machine<S>, s: Stream<S>, input: seq<byte>, p: nat, n: nat)
    requires |s.flows| == 6 && p <= n <= |input|
    ensures Fed(m, s, input, p).taken <= Fed(m, s, input, n).taken
    decreases n
  {
    if p < n {
      TakenGrows(m, s, input, p, n - 1);
    }
  }

  lemma {:induction false} FlowActsOver(w: Flow, f: Field, acts: seq<Action>)
    ensures FlowActs(w, f, acts).over == w.over
    decreases |acts|
  {
    if acts != [] {
      FlowActsOver(FlowAct(w, f, acts[0]), f, acts[1..]);
    }
  }

  lemma FeedFails<S(!new)>(m: Machine<S>, s: Stream<S>, b: byte)
    requires |s.flows| == 6
    ensures Fails(s) ==> Fails(Feed(m, s, b))
  {
    if Fails(s) && !s.status.Failed? {
      var f :| 0 <= f < 6 && s.flows[f].over;
      if m(s.cs, b).Go? {
        FlowActsOver(s.flows[f], f, m(s.cs, b).acts);
      }
      assert Feed(m, s, b).status.Failed? || Feed(m, s, b).flows[f].over;
    }
  }

  /** What the bytes from `p` to `q` do to a field. */
  function Passes(w: Flow, seg: seq<byte>, p: nat, q: nat): Flow
    requires p <= q <= |seg|
    decreases q
  {
    if p == q then w else Pass(Passes(w, seg, p, q - 1), seg[q - 1])
  }

  function PassesAll(flows: seq<Flow>, seg: seq<byte>, p: nat, q: nat): seq<Flow>
    requires p <= q <= |seg|
  {
    seq(|flows|, f requires 0 <= f < |flows| => Passes(flows[f], seg, p, q))
  }

  lemma {:induction false} PassesTrack(slot: Slot, w: Flow, seg: seq<byte>, p: nat, q: nat)
    requires TracksOrFailed(slot, w, seg, p) && p <= q <= |seg|
    ensures TracksOrFailed(slot, Passes(w, seg, p, q), seg, q)
    decreases q
  {
    if p < q {
      PassesTrack(slot, w, seg, p, q - 1);
      PassTracks(slot, Passes(w, seg, p, q - 1), seg, q - 1);
    }
  }

  /** The stream in the middle of a chunk of `n` bytes that began at `p`, in state `s`. */
  function Eaten<S>(s: Stream<S>, next: S, n: nat, seg: seq<byte>, p: nat, q: nat): Stream<S>
    requires p <= q <= |seg| && q - p <= n
  {
    Stream(next, n - (q - p), PassesAll(s.flows, seg, p, q), s.body + Bytes(seg[p..q]), s.due, s.status, s.taken + (q - p))
  }

  lemma EatenStep<S(!new)>(m: Machine<S>, s: Stream<S>, next: S, n: nat, seg: seq<byte>, p: nat, q: nat)
    requires |s.flows| == 6 && s.status.Running? && p < q <= |seg| && q - p <= n
    ensures Feed(m, Eaten(s, next, n, seg, p, q - 1), seg[q - 1]) == Eaten(s, next, n, seg, p, q)
  {
  }

  lemma EatenNothing<S(!new)>(s: Stream<S>, seg: seq<byte>, p: nat)
    requires p <= |seg|
    ensures Eaten(s, s.cs, s.eat, seg, p, p) == s
  {
  }

  /** An unfinished chunk of `n` bytes, or one that begins with the byte at `p`. */
  lemma {:induction false} FedEats<S(!new)>(m: Machine<S>, s0: Stream<S>, seg: seq<byte>, s: Stream<S>, next: S, n: nat, p: nat, q: nat)
    requires |s0.flows| == 6 && p <= q <= |seg| && s == Fed(m, s0, seg, p) && s.status.Running? && q - p <= n
    requires (s.cs == next && s.eat == n) || (p < q && s.eat == 0 && n > 0 && m(s.cs, seg[p]) == Eat(next, n))
    ensures Fed(m, s0, seg, q) == Eaten(s, next, n, seg, p, q)
    decreases q
  {
    if p == q {
      EatenNothing(s, seg, p);
    } else if s.eat == 0 && p == q - 1 {
      var s1 := s.(cs := next, eat := n);
      EatenNothing(s1, seg, p);
      EatenStep(m, s1, next, n, seg, p, q);
      assert Feed(m, s, seg[p]) == Feed(m, s1, seg[p]);
    } else {
      FedEats(m, s0, seg, s, next, n, p, q - 1);
      EatenStep(m, s, next, n, seg, p, q);
    }
  }

  /** Actions and the byte after them. */
  lemma GoFollows<S(!new)>(m: Machine<S>, st: Parser<S>, s: Stream<S>, seg: seq<byte>)
    requires st.pos < |seg| && st.status.Running? && st.eat == 0 && m(st.cs, seg[st.pos]).Go?
    requires Ok(st, seg) && Follows(st, s, seg) && (CalmByte(m, s, seg[st.pos]) || st.pos == 0)
    ensures var r, s' := Turn(m, st, seg), Feed(m, s, seg[st.pos]); if r.status.Failed? then Fails(s') else Follows(r, s', seg)
  {
    var r, s' := Turn(m, st, seg), Feed(m, s, seg[st.pos]);
    var acts := m(st.cs, seg[st.pos]).acts;
    forall f | 0 <= f < 6 ensures TracksOrFailed(r.slots[f], s'.flows[f], seg, st.pos + 1) {
      ActsTrack(st.slots[f], s.flows[f], f, acts, seg, st.pos);
      PassTracks(Acts(st.slots[f], f, acts, seg, st.pos), FlowActs(s.flows[f], f, acts), seg, st.pos);
    }
    if r.status.Failed? {
      var f :| 0 <= f < 6 && r.slots[f].failed;
      assert s'.flows[f].over;
    }
  }

  /** A cursor that is in step with the stream, or a failure that the stream shares. */
  ghost predicate InStep<S(!new)>(m: Machine<S>, st: Parser<S>, s0: Stream<S>, seg: seq<byte>)
    requires |s0.flows| == 6
  {
    Ok(st, seg) && if st.status.Failed? then Fails(FeedAll(m, s0, seg)) else Follows(st, Fed(m, s0, seg, st.pos), seg)
  }

  /** A chunk, as far as the segment goes. */
  lemma EatTurn<S(!new)>(m: Machine<S>, st: Parser<S>, s0: Stream<S>, seg: seq<byte>, s: Stream<S>, r: Parser<S>)
    requires |s0.flows| == 6 && Ok(st, seg) && st.status.Running? && st.pos < |seg| && m(st.cs, seg[st.pos]).Eat?
    requires s == Fed(m, s0, seg, st.pos) && Follows(st, s, seg) && r == Turn(m, st, seg)
    ensures Follows(r, Fed(m, s0, seg, r.pos), seg)
  {
    var Eat(next, n) := m(st.cs, seg[st.pos]);
    FedEats(m, s0, seg, s, next, n, st.pos, r.pos);
    EatenFollows(st, s, seg, next, n, r);
  }

  lemma EatenFollows<S(!new)>(st: Parser<S>, s: Stream<S>, seg: seq<byte>, next: S, n: nat, r: Parser<S>)
    requires Follows(st, s, seg) && st.pos <= r.pos <= |seg| && r.pos - st.pos <= n
    requires r == st.(cs := next, eat := n - (r.pos - st.pos), body := st.body + Bytes(seg[st.pos..r.pos]), pos := r.pos)
    ensures Follows(r, Eaten(s, next, n, seg, st.pos, r.pos), seg)
  {
    forall f | 0 <= f < 6 ensures Tracks(st.slots[f], Passes(s.flows[f], seg, st.pos, r.pos), seg, r.pos) {
      PassesTrack(st.slots[f], s.flows[f], seg, st.pos, r.pos);
    }
  }

  lemma TurnInStep<S(!new)>(m: Machine<S>, st: Parser<S>, s0: Stream<S>, seg: seq<byte>)
    requires |s0.flows| == 6 && InStep(m, st, s0, seg) && st.status.Running? && st.pos < |seg|
    requires CalmByte(m, Fed(m, s0, seg, st.pos), seg[st.pos]) || st.pos == 0
    ensures InStep(m, Turn(m, st, seg), s0, seg)
  {
    var s := Fed(m, s0, seg, st.pos);
    match m(st.cs, seg[st.pos]) {
      case Reject => FedLater(m, s0, seg, st.pos + 1, |seg|);
      case Eat(next, n) => EatTurn(m, st, s0, seg, s, Turn(m, st, seg));
      case Go(_, _, _) =>
        GoFollows(m, st, s, seg);
        if Turn(m, st, seg).status.Failed? {
          FedLater(m, s0, seg, st.pos + 1, |seg|);
        }
    }
  }

  lemma {:induction false} TurnsInStep<S(!new)>(m: Machine<S>, st: Parser<S>, s0: Stream<S>, seg: seq<byte>)
    requires |s0.flows| == 6 && InStep(m, st, s0, seg) && (Disciplined(m, s0, seg) || |seg| <= 1)
    ensures InStep(m, Turns(m, st, seg), s0, seg)
    decreases !st.status.Failed?, |seg| - st.pos
  {
    if st.status.Running? && st.pos < |seg| {
      TurnInStep(m, st, s0, seg);
      TurnsInStep(m, Turn(m, st, seg), s0, seg);
    }
  }

  /** The parser between two segments has delivered what the stream has delivered. */
  ghost predicate Agree<S(!new)>(st: Parser<S>, s: Stream<S>) {
    && |st.slots| == 6 && |s.flows| == 6
    && if st.status.Failed? then Fails(s)
       else
         && st.cs == s.cs && st.eat == s.eat && st.body == s.body && st.due == s.due && st.status == s.status
         && forall f :: 0 <= f < 6 ==> AgreeOn(st.slots[f], s.flows[f])
  }

  ghost predicate AgreeOn(slot: Slot, w: Flow) {
    && !slot.failed && !w.over && w.open == slot.mark.At? && w.got == slot.got
    && (w.open ==> w.size == slot.size <= MAX_FIELD_SIZE)
  }

  lemma EnterInStep<S(!new)>(m: Machine<S>, st: Parser<S>, s: Stream<S>, seg: seq<byte>)
    requires Agree(st, s) && st.status.Running?
    ensures InStep(m, Enter(st, seg), s, seg)
  {
    var r := Enter(st, seg);
    var st0 := r.(eat := st.eat, body := st.body, pos := 0);
    forall f | 0 <= f < 6 ensures Tracks(st0.slots[f], s.flows[f], seg, 0) {
      assert AgreeOn(st.slots[f], s.flows[f]);
      assert Bytes(seg[0..0]) == [];
    }
    assert seg[0..r.pos] == seg[..r.pos];
    FedEats(m, s, seg, s, s.cs, s.eat, 0, r.pos);
    EatenFollows(st0, s, seg, s.cs, s.eat, r);
  }

  lemma LeaveAgrees<S(!new)>(st: Parser<S>, s: Stream<S>, seg: seq<byte>)
    requires Ok(st, seg) && Follows(st, s, seg)
    ensures Agree(Leave(st, seg), s)
  {
  }

  lemma ExecuteAgrees<S(!new)>(m: Machine<S>, st: Parser<S>, s: Stream<S>, seg: seq<byte>)
    requires Agree(st, s) && (Disciplined(m, s, seg) || |seg| <= 1)
    ensures Agree(Execute(m, st, seg), FeedAll(m, s, seg))
  {
    FedLater(m, s, seg, 0, |seg|);
    if st.status.Running? {
      EnterInStep(m, st, s, seg);
      TurnsInStep(m, Enter(st, seg), s, seg);
      var r := Turns(m, Enter(st, seg), seg);
      if !r.status.Failed? {
        TurnsEnd(m, Enter(st, seg), seg);
        FedLater(m, s, seg, r.pos, |seg|);
        LeaveAgrees(r, Fed(m, s, seg, r.pos), seg);
      }
    }
  }

  lemma {:induction false} TurnsEnd<S(!new)>(m: Machine<S>, st: Parser<S>, seg: seq<byte>)
    requires Ok(st, seg)
    ensures var r := Turns(m, st, seg); r.status.Running? ==> r.pos == |seg|
    decreases !st.status.Failed?, |seg| - st.pos
  {
    if st.status.Running? && st.pos < |seg| {
      TurnsEnd(m, Turn(m, st, seg), seg);
    }
  }

  // ------------------------------------------------------------ all cuttings

  lemma DisciplinedSplit<S(!new)>(m: Machine<S>, s: Stream<S>, a: seq<byte>, b: seq<byte>)
    requires |s.flows| == 6
    ensures Disciplined(m, s, a + b) ==> Disciplined(m, s, a) && Disciplined(m, FeedAll(m, s, a), b)
  {
    if Disciplined(m, s, a + b) {
      forall i | 0 <= i < |a| ensures CalmByte(m, Fed(m, s, a, i), a[i]) {
        FedPrefix(m, s, a, b, i);
        assert (a + b)[i] == a[i];
      }
      forall i | 0 <= i < |b| ensures CalmByte(m, Fed(m, FeedAll(m, s, a), b, i), b[i]) {
        FedConcat(m, s, a, b, i);
        assert (a + b)[|a| + i] == b[i];
      }
    }
  }

  /** The run is disciplined, or it is cut after every byte. */
  ghost predicate Safe<S(!new)>(m: Machine<S>, s: Stream<S>, cuts: seq<seq<byte>>)
    requires |s.flows| == 6
  {
    Disciplined(m, s, Flat(cuts)) || forall i :: 0 <= i < |cuts| ==> |cuts[i]| <= 1
  }

  lemma SafeSplit<S(!new)>(m: Machine<S>, s: Stream<S>, first: seq<byte>, cuts: seq<seq<byte>>)
    requires |s.flows| == 6 && cuts != [] && first == cuts[0] && Safe(m, s, cuts)
    ensures (Disciplined(m, s, first) || |first| <= 1) && Safe(m, FeedAll(m, s, first), cuts[1..])
  {
    DisciplinedSplit(m, s, first, Flat(cuts[1..]));
  }

  lemma FeedFlat<S(!new)>(m: Machine<S>, s: Stream<S>, cuts: seq<seq<byte>>)
    requires |s.flows| == 6 && cuts != []
    ensures FeedAll(m, s, Flat(cuts)) == FeedAll(m, FeedAll(m, s, cuts[0]), Flat(cuts[1..]))
  {
    FedConcat(m, s, cuts[0], Flat(cuts[1..]), |Flat(cuts[1..])|);
  }

  /** A safe run delivers what the stream delivers. */
  lemma {:induction false} RunAgrees<S(!new)>(m: Machine<S>, st: Parser<S>, s: Stream<S>, cuts: seq<seq<byte>>)
    requires Agree(st, s) && Safe(m, s, cuts)
    ensures Agree(Run(m, st, cuts), FeedAll(m, s, Flat(cuts)))
    decreases |cuts|
  {
    if cuts != [] {
      var first := cuts[0];
      SafeSplit(m, s, first, cuts);
      FeedFlat(m, s, cuts);
      ExecuteAgrees(m, st, s, first);
      RunAgrees(m, Execute(m, st, first), FeedAll(m, s, first), cuts[1..]);
    }
  }
}
