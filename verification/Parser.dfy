/** The mark and callback machinery of the HTTP parser, over any automaton that issues its actions. The
    input arrives in segments; a field that is open at the end of a segment is delivered up to there and
    marked again at the start of the next one. */
module Parser {
  import opened Basics
  import opened Pages

  const MAX_FIELD_SIZE: nat := 80 * 1024

  type Field = x: nat | x < 6

  const HEADER_FIELD: Field := 0
  const HEADER_VALUE: Field := 1

  type Positive = x: nat | x > 0 witness 1

  /** `Complete` ends a request and closes every field; `due` says that a body with a content length follows. */
  datatype Action = Mark(f: Field) | Emit(f: Field) | HeaderLine | Complete(due: bool)

  /** What the automaton does with a byte: run actions and go on or stop after the byte, begin to eat `n` bytes
      of chunk data with this byte, or fail. */
  datatype Move<S> = Go(next: S, acts: seq<Action>, stop: bool) | Eat(next: S, n: Positive) | Reject

  type Machine<!S> = (S, byte) -> Move<S>

  /** What a callback receives for one field: bytes, and the events that read and clear them. */
  datatype Item = Byte(b: byte) | Line | Done

  function Bytes(s: seq<byte>): seq<Item> {
    seq(|s|, i requires 0 <= i < |s| => Byte(s[i]))
  }

  datatype Mark = Closed | At(pos: nat)

  /** One field of the parser: where it is marked in the current segment, the bytes counted before that, what
      has been delivered, and whether it has grown too large. */
  datatype Slot = Slot(mark: Mark, size: nat, got: seq<Item>, failed: bool)

  datatype Status = Running | Halted | Failed

  /** `eat` bytes of a chunk are still to come; `pos` is the cursor in the current segment. */
  datatype Parser<S> = Parser(cs: S, eat: nat, slots: seq<Slot>, body: seq<Item>, due: bool, status: Status, pos: nat)

  function Initial<S>(cs: S): Parser<S> {
    Parser(cs, 0, seq(6, _ => Slot(Closed, 0, [], false)), [], false, Running, 0)
  }

  // ------------------------------------------------------------ one field

  ghost predicate SlotOk(slot: Slot, seg: seq<byte>, p: nat) {
    slot.mark.At? ==> slot.mark.pos <= p <= |seg|
  }

  /** The CALLBACK macro, at position `p`. */
  function Callback(slot: Slot, seg: seq<byte>, p: nat): Slot
    requires SlotOk(slot, seg, p)
  {
    if slot.mark.Closed? then slot
    else
      var size := slot.size + p - slot.mark.pos;
      if size > MAX_FIELD_SIZE then slot.(failed := true)
      else slot.(size := size, got := slot.got + Bytes(seg[slot.mark.pos..p]))
  }

  predicate Reads(f: Field, a: Action) {
    a.Complete? || (a.HeaderLine? && (f == HEADER_FIELD || f == HEADER_VALUE))
  }

  function Act(slot: Slot, f: Field, a: Action, seg: seq<byte>, p: nat): (r: Slot)
    requires SlotOk(slot, seg, p) && p <= |seg|
    ensures SlotOk(r, seg, p)
  {
    match a
    case Mark(g) => if f == g then slot.(mark := At(p), size := 0) else slot
    case Emit(g) => if f == g then Callback(slot, seg, p).(mark := Closed, size := 0) else slot
    case HeaderLine => if Reads(f, a) then slot.(got := slot.got + [Line]) else slot
    case Complete(_) => slot.(mark := Closed, got := slot.got + [Done])
  }

  function Acts(slot: Slot, f: Field, acts: seq<Action>, seg: seq<byte>, p: nat): (r: Slot)
    requires SlotOk(slot, seg, p) && p <= |seg|
    ensures SlotOk(r, seg, p)
    decreases |acts|
  {
    if acts == [] then slot else Acts(Act(slot, f, acts[0], seg, p), f, acts[1..], seg, p)
  }

  // ------------------------------------------------------------ one segment

  ghost predicate Ok<S(!new)>(st: Parser<S>, seg: seq<byte>) {
    && |st.slots| == 6 && st.pos <= |seg|
    && (forall f :: 0 <= f < 6 ==> SlotOk(st.slots[f], seg, st.pos))
    && (st.eat > 0 ==> st.pos == |seg|)
  }

  function Ends(acts: seq<Action>): seq<Item> {
    if acts == [] then [] else (if acts[0].Complete? then [Done] else []) + Ends(acts[1..])
  }

  function DueAfter(due: bool, acts: seq<Action>): bool
    decreases |acts|
  {
    if acts == [] then due else DueAfter(if acts[0].Complete? then acts[0].due else due, acts[1..])
  }

  predicate AnyFailed(slots: seq<Slot>) {
    exists f :: 0 <= f < |slots| && slots[f].failed
  }

  /** One turn of the generated loop. */
  function Turn<S(!new)>(m: Machine<S>, st: Parser<S>, seg: seq<byte>): (r: Parser<S>)
    requires Ok(st, seg) && st.status.Running? && st.pos < |seg|
    ensures Ok(r, seg) && (r.status.Failed? || r.pos > st.pos)
  {
    match m(st.cs, seg[st.pos])
    case Reject => st.(status := Failed)
    case Eat(next, n) =>
      var k := Min(n, |seg| - st.pos);
      st.(cs := next, eat := n - k, body := st.body + Bytes(seg[st.pos..st.pos + k]), pos := st.pos + k)
    case Go(next, acts, stop) =>
      var slots := seq(6, f requires 0 <= f < 6 => Acts(st.slots[f], f, acts, seg, st.pos));
      Parser(next, 0, slots, st.body + Ends(acts), DueAfter(st.due, acts),
             if AnyFailed(slots) then Failed else if stop then Halted else Running, st.pos + 1)
  }

  function Turns<S(!new)>(m: Machine<S>, st: Parser<S>, seg: seq<byte>): (r: Parser<S>)
    requires Ok(st, seg)
    ensures Ok(r, seg)
    decreases !st.status.Failed?, |seg| - st.pos
  {
    if !st.status.Running? || st.pos == |seg| then st else Turns(m, Turn(m, st, seg), seg)
  }

  /** The start of a segment: an unfinished chunk is eaten first, and open fields are marked at the start. */
  function Enter<S(!new)>(st: Parser<S>, seg: seq<byte>): (r: Parser<S>)
    requires |st.slots| == 6
    ensures Ok(r, seg)
  {
    var k := Min(st.eat, |seg|);
    var slots := seq(6, f requires 0 <= f < 6 => st.slots[f].(mark := if st.slots[f].mark.At? then At(0) else Closed));
    st.(eat := st.eat - k, slots := slots, body := st.body + Bytes(seg[..k]), pos := k)
  }

  /** The end of a segment: every open field is delivered up to the cursor. */
  function Leave<S(!new)>(st: Parser<S>, seg: seq<byte>): (r: Parser<S>)
    requires Ok(st, seg)
    ensures |r.slots| == 6
  {
    if st.status.Failed? then st
    else
      var slots := seq(6, f requires 0 <= f < 6 => Callback(st.slots[f], seg, st.pos));
      st.(slots := slots, status := if AnyFailed(slots) then Failed else st.status)
  }

  /** `http_parser_execute`; a parser that has stopped or failed is not called again. */
  function Execute<S(!new)>(m: Machine<S>, st: Parser<S>, seg: seq<byte>): (r: Parser<S>)
    requires |st.slots| == 6
    ensures |r.slots| == 6
  {
    if !st.status.Running? then st else Leave(Turns(m, Enter(st, seg), seg), seg)
  }

  /** The same as the loop that it is. */
  method RunSegment<S(!new)>(m: Machine<S>, st: Parser<S>, seg: seq<byte>) returns (r: Parser<S>)
    requires |st.slots| == 6 && st.status.Running?
    ensures r == Execute(m, st, seg)
  {
    r := Enter(st, seg);
    while r.status.Running? && r.pos < |seg|
      invariant Ok(r, seg) && Turns(m, r, seg) == Turns(m, Enter(st, seg), seg)
      decreases !r.status.Failed?, |seg| - r.pos
    {
      r := Turn(m, r, seg);
    }
    r := Leave(r, seg);
  }

  function Run<S(!new)>(m: Machine<S>, st: Parser<S>, cuts: seq<seq<byte>>): (r: Parser<S>)
    requires |st.slots| == 6
    ensures |r.slots| == 6
    decreases |cuts|
  {
    if cuts == [] then st else Run(m, Execute(m, st, cuts[0]), cuts[1..])
  }

  // ------------------------------------------------------------ the same without segments

  /** A field as a stream: every byte that passes while it is open is delivered at once. `size` counts the
      bytes since it was marked. */
  datatype Flow = Flow(open: bool, size: nat, got: seq<Item>, over: bool)

  datatype Stream<S> = Stream(cs: S, eat: nat, flows: seq<Flow>, body: seq<Item>, due: bool, status: Status, taken: nat)

  function Source<S>(cs: S): Stream<S> {
    Stream(cs, 0, seq(6, _ => Flow(false, 0, [], false)), [], false, Running, 0)
  }

  function FlowAct(w: Flow, f: Field, a: Action): Flow {
    match a
    case Mark(g) => if f == g then w.(open := true, size := 0) else w
    case Emit(g) => if f == g then w.(open := false, size := 0) else w
    case HeaderLine => if Reads(f, a) then w.(got := w.got + [Line]) else w
    case Complete(_) => w.(open := false, size := 0, got := w.got + [Done])
  }

  function FlowActs(w: Flow, f: Field, acts: seq<Action>): Flow
    decreases |acts|
  {
    if acts == [] then w else FlowActs(FlowAct(w, f, acts[0]), f, acts[1..])
  }

  function Pass(w: Flow, b: byte): Flow {
    if w.open then Flow(true, w.size + 1, w.got + [Byte(b)], w.over || w.size + 1 > MAX_FIELD_SIZE) else w
  }

  function PassAll(flows: seq<Flow>, b: byte): seq<Flow> {
    seq(|flows|, f requires 0 <= f < |flows| => Pass(flows[f], b))
  }

  function Feed<S>(m: Machine<S>, s: Stream<S>, b: byte): (r: Stream<S>)
    requires |s.flows| == 6
    ensures |r.flows| == 6
  {
    if !s.status.Running? then s
    else if s.eat > 0 then
      s.(eat := s.eat - 1, flows := PassAll(s.flows, b), body := s.body + [Byte(b)], taken := s.taken + 1)
    else
      match m(s.cs, b)
      case Reject => s.(status := Failed)
      case Eat(next, n) =>
        s.(cs := next, eat := n - 1, flows := PassAll(s.flows, b), body := s.body + [Byte(b)], taken := s.taken + 1)
      case Go(next, acts, stop) =>
        var flows := seq(6, f requires 0 <= f < 6 => Pass(FlowActs(s.flows[f], f, acts), b));
        Stream(next, 0, flows, s.body + Ends(acts), DueAfter(s.due, acts), if stop then Halted else Running, s.taken + 1)
  }

  /** The stream after the first `n` bytes of the input. */
  function Fed<S>(m: Machine<S>, s: Stream<S>, input: seq<byte>, n: nat): (r: Stream<S>)
    requires |s.flows| == 6 && n <= |input|
    ensures |r.flows| == 6
  {
    if n == 0 then s else Feed(m, Fed(m, s, input, n - 1), input[n - 1])
  }

  function FeedAll<S>(m: Machine<S>, s: Stream<S>, input: seq<byte>): (r: Stream<S>)
    requires |s.flows| == 6
    ensures |r.flows| == 6
  {
    Fed(m, s, input, |input|)
  }

  /** The parser rejects the input, or a field outgrows the limit. */
  predicate Fails<S>(s: Stream<S>) {
    s.status.Failed? || exists f :: 0 <= f < |s.flows| && s.flows[f].over
  }

  // ------------------------------------------------------------ discipline

  /** The action drops or reads what is pending in field `f`. */
  predicate Disturbs(f: Field, a: Action) {
    a == Mark(f) || Reads(f, a)
  }

  /** No action disturbs the field while it is open and bytes have passed since its mark. */
  ghost predicate Calm(w: Flow, f: Field, acts: seq<Action>)
    decreases |acts|
  {
    acts == [] || ((Disturbs(f, acts[0]) && w.open ==> w.size == 0) && Calm(FlowAct(w, f, acts[0]), f, acts[1..]))
  }

  ghost predicate CalmByte<S(!new)>(m: Machine<S>, s: Stream<S>, b: byte)
    requires |s.flows| == 6
  {
    s.status.Running? && s.eat == 0 && m(s.cs, b).Go? ==> forall f :: 0 <= f < 6 ==> Calm(s.flows[f], f, m(s.cs, b).acts)
  }

  /** Along the whole input no field is marked again, read or reset while it has pending bytes. */
  ghost predicate Disciplined<S(!new)>(m: Machine<S>, s: Stream<S>, input: seq<byte>)
    requires |s.flows| == 6
  {
    forall i :: 0 <= i < |input| ==> CalmByte(m, Fed(m, s, input, i), input[i])
  }
}
