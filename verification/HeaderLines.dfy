/** A small grammar in the manner of the HTTP one: header lines, a body with a content length, and chunks. It shows that
    the conditions of the parser theorems are met by an automaton that marks and emits, for every input. */
module HeaderLines {
  import opened Basics
  import opened Pages
  import opened Parser
  import opened ParserTheorems
  import opened ParserExact
  import opened Conversation
  import opened HttpConnection

  const LF: byte := 10
  const SPACE: byte := 32
  const ZERO: byte := 48
  const COLON: byte := 58
  const LENGTH: byte := 76    // a header that begins with 'L' announces a body with a content length
  const CHUNKED: byte := 84   // a header that begins with 'T' announces chunks

  datatype Phase = Start | Name | Separator | Value | Size | Data | DataEnd | Last

  /** `seen`: a header line is complete and not yet reported. */
  datatype Control = Control(phase: Phase, seen: bool, chunked: bool, due: bool, size: nat)

  const FRESH: Control := Control(Start, false, false, false, 0)

  function Report(cs: Control): (r: seq<Action>)
    ensures |r| <= 1 && forall i :: 0 <= i < |r| ==> r[i] == HeaderLine
  {
    if cs.seen then [HeaderLine] else []
  }

  /** The first byte of a line. The end of the header block completes the request, or leads to its chunks. */
  function AtStart(chunks: bool, cs: Control, b: byte): Move<Control> {
    if b == LF then
      if cs.chunked then Go(Control(Size, false, true, cs.due, 0), Report(cs), false)
      else Go(FRESH, Report(cs) + [Complete(cs.due)], cs.due)
    else if b == COLON then Reject
    else
      Go(Control(Name, false, cs.chunked || (chunks && b == CHUNKED), cs.due || b == LENGTH, 0), Report(cs) + [Mark(HEADER_FIELD)], false)
  }

  function Grammar(chunks: bool): Machine<Control> {
    (cs: Control, b: byte) =>
      match cs.phase
      case Start => AtStart(chunks, cs, b)
      case Name =>
        if b == COLON then Go(cs.(phase := Separator), [Emit(HEADER_FIELD)], false)
        else if b == LF then Reject
        else Go(cs, [], false)
      case Separator =>
        if b == SPACE then Go(cs, [], false)
        else if b == LF then Go(cs.(phase := Start, seen := true), [Emit(HEADER_VALUE)], false)
        else Go(cs.(phase := Value), [Mark(HEADER_VALUE)], false)
      case Value =>
        if b == LF then Go(cs.(phase := Start, seen := true), [Emit(HEADER_VALUE)], false) else Go(cs, [], false)
      case Size =>
        if ZERO <= b < ZERO + 10 then Go(cs.(size := cs.size * 10 + (b - ZERO)), [], false)
        else if b == LF then Go(cs.(phase := if cs.size == 0 then Last else Data), [], false)
        else Reject
      case Data => if cs.size == 0 then Reject else Eat(cs.(phase := DataEnd), cs.size)
      case DataEnd => if b == LF then Go(cs.(phase := Size, size := 0), [], false) else Reject
      case Last => if chunks && b == LF then Go(FRESH, [Complete(cs.due)], false) else Reject
  }

  // ------------------------------------------------------------ discipline

  /** A field is open only while its part of the line is read. */
  predicate OpenIn(f: Field, phase: Phase) {
    (f == HEADER_FIELD && phase == Name) || (f == HEADER_VALUE && phase == Value)
  }

  ghost predicate Tidy(s: Stream<Control>) {
    |s.flows| == 6 && forall f :: 0 <= f < 6 && s.flows[f].open ==> OpenIn(f, s.cs.phase)
  }

  /** A closed field is not disturbed, and is open afterwards only if the last action marks it. */
  lemma {:induction false} ClosedIsCalm(w: Flow, f: Field, acts: seq<Action>)
    requires !w.open && forall i :: 0 <= i < |acts| - 1 ==> !acts[i].Mark?
    ensures Calm(w, f, acts) && (FlowActs(w, f, acts).open ==> acts != [] && acts[|acts| - 1] == Mark(f))
    decreases |acts|
  {
    if |acts| == 1 {
      assert acts[1..] == [];
      assert FlowActs(w, f, acts) == FlowAct(w, f, acts[0]);
    } else if acts != [] {
      ClosedIsCalm(FlowAct(w, f, acts[0]), f, acts[1..]);
    }
  }

  /** An open field is emitted or left alone. */
  lemma EmitIsCalm(w: Flow, f: Field, acts: seq<Action>)
    requires acts == [] || acts == [Emit(f)]
    ensures Calm(w, f, acts) && FlowActs(w, f, acts).open == (acts == [] && w.open)
  {
    assert acts != [] ==> acts[1..] == [];
  }

  lemma FieldStaysTidy(chunks: bool, s: Stream<Control>, b: byte, f: Field)
    requires Tidy(s) && Grammar(chunks)(s.cs, b).Go?
    ensures var Go(next, acts, _) := Grammar(chunks)(s.cs, b);
      Calm(s.flows[f], f, acts) && (FlowActs(s.flows[f], f, acts).open ==> OpenIn(f, next.phase))
  {
    var acts := Grammar(chunks)(s.cs, b).acts;
    if s.flows[f].open {
      EmitIsCalm(s.flows[f], f, acts);
    } else {
      ClosedIsCalm(s.flows[f], f, acts);
    }
  }

  lemma ByteStaysTidy(chunks: bool, s: Stream<Control>, b: byte)
    requires Tidy(s)
    ensures CalmByte(Grammar(chunks), s, b) && (s.eat == 0 || s.cs.phase == DataEnd ==> Tidy(Feed(Grammar(chunks), s, b)))
  {
    if Grammar(chunks)(s.cs, b).Go? {
      forall f | 0 <= f < 6
        ensures Calm(s.flows[f], f, Grammar(chunks)(s.cs, b).acts)
        ensures FlowActs(s.flows[f], f, Grammar(chunks)(s.cs, b).acts).open ==> OpenIn(f, Grammar(chunks)(s.cs, b).next.phase)
      {
        FieldStaysTidy(chunks, s, b, f);
      }
    }
  }

  lemma {:induction false} StaysTidy(chunks: bool, input: seq<byte>, n: nat)
    requires n <= |input|
    ensures var s := Fed(Grammar(chunks), Source(FRESH), input, n); Tidy(s) && (s.eat == 0 || s.cs.phase == DataEnd)
  {
    if n > 0 {
      StaysTidy(chunks, input, n - 1);
      ByteStaysTidy(chunks, Fed(Grammar(chunks), Source(FRESH), input, n - 1), input[n - 1]);
    }
  }

  /** The grammar never disturbs a pending field, whatever the input. */
  lemma AlwaysDisciplined(chunks: bool, input: seq<byte>)
    ensures Disciplined(Grammar(chunks), Source(FRESH), input)
  {
    forall i | 0 <= i < |input| ensures CalmByte(Grammar(chunks), Fed(Grammar(chunks), Source(FRESH), input, i), input[i]) {
      StaysTidy(chunks, input, i);
      ByteStaysTidy(chunks, Fed(Grammar(chunks), Source(FRESH), input, i), input[i]);
    }
  }

  // ------------------------------------------------------------ stopping

  lemma DueOfOne(due: bool, a: Action)
    ensures DueAfter(due, [a]) == if a.Complete? then a.due else due
  {
    assert [a][1..] == [];
  }

  lemma DueOfReport(due: bool, cs: Control, last: Action)
    ensures DueAfter(due, Report(cs) + [last]) == if last.Complete? then last.due else due
    ensures DueAfter(due, Report(cs)) == due
  {
    DueOfOne(due, last);
    if cs.seen {
      DueOfOne(due, HeaderLine);
      assert (Report(cs) + [last])[0] == HeaderLine && (Report(cs) + [last])[1..] == [last];
    } else {
      assert Report(cs) + [last] == [last];
    }
  }

  /** Whether a move leaves a body due, for every state and byte. */
  lemma DueOfMove(chunks: bool, cs: Control, b: byte, due: bool)
    requires Grammar(chunks)(cs, b).Go?
    ensures DueAfter(due, Grammar(chunks)(cs, b).acts) ==
      if (cs.phase.Start? && b == LF && !cs.chunked) || cs.phase.Last? then cs.due else due
  {
    DueOfReport(due, cs, Complete(cs.due));
    DueOfReport(due, cs, Mark(HEADER_FIELD));
    DueOfOne(due, Complete(cs.due));
    DueOfOne(due, Emit(HEADER_FIELD));
    DueOfOne(due, Emit(HEADER_VALUE));
    DueOfOne(due, Mark(HEADER_VALUE));
  }

  lemma AlwaysStopsAtBody(chunks: bool)
    ensures StopsAtBody(Grammar(chunks))
  {
    forall cs, b | Grammar(chunks)(cs, b).Go? && Grammar(chunks)(cs, b).stop ensures DueAfter(false, Grammar(chunks)(cs, b).acts) {
      DueOfMove(chunks, cs, b, false);
    }
  }

  /** The automaton stops whenever it completes a request with a content length. */
  ghost predicate DueStops<S(!new)>(m: Machine<S>) {
    forall cs, b :: m(cs, b).Go? && DueAfter(false, m(cs, b).acts) ==> m(cs, b).stop
  }

  lemma {:induction false} DueMeansStopped<S(!new)>(m: Machine<S>, s: Stream<S>, input: seq<byte>, n: nat)
    requires |s.flows| == 6 && n <= |input| && DueStops(m) && !s.due
    ensures Fed(m, s, input, n).due ==> !Fed(m, s, input, n).status.Running?
  {
    if n > 0 {
      DueMeansStopped(m, s, input, n - 1);
    }
  }

  lemma DueStopsHere<S(!new)>(m: Machine<S>, s: Stream<S>, input: seq<byte>)
    requires |s.flows| == 6 && DueStops(m) && !s.due
    ensures StopsWhenDue(m, s, input)
  {
    forall i | 0 <= i < |input| && Fed(m, s, input, i).due ensures !Fed(m, s, input, i).status.Running? {
      DueMeansStopped(m, s, input, i);
    }
  }

  /** Without chunks the automaton stops at every request with a content length. */
  lemma StopsWithoutChunks()
    ensures DueStops(Grammar(false))
  {
    forall cs, b | Grammar(false)(cs, b).Go? && DueAfter(false, Grammar(false)(cs, b).acts) ensures Grammar(false)(cs, b).stop {
      DueOfMove(false, cs, b, false);
    }
  }

  /** So every input of header lines that does not fail is parsed alike, and consumed alike, however it is cut. */
  lemma HeaderLinesAreCutFree(input: seq<byte>)
    requires !Fails(FeedAll(Grammar(false), Source(FRESH), input))
    ensures CutFree(Grammar(false), FRESH, input) && CutFreeLoop(Grammar(false), FRESH, input)
  {
    AlwaysDisciplined(false, input);
    CutFreeExactlyWhenDisciplined(Grammar(false), FRESH, input);
    AlwaysStopsAtBody(false);
    StopsWithoutChunks();
    DueStopsHere(Grammar(false), Source(FRESH), input);
    LoopIsCutFreeExactly(Grammar(false), FRESH, input);
  }

  // ------------------------------------------------------------ a request with both a content length and chunks

  /** An input no longer than the limit cannot make a field outgrow it. */
  lemma {:induction false} ShortInputFits<S(!new)>(m: Machine<S>, cs: S, input: seq<byte>, n: nat)
    requires n <= |input| <= MAX_FIELD_SIZE
    ensures forall f :: 0 <= f < 6 ==> var w := Fed(m, Source(cs), input, n).flows[f]; !w.over && w.size <= n
  {
    if n > 0 {
      ShortInputFits(m, cs, input, n - 1);
      var s, b := Fed(m, Source(cs), input, n - 1), input[n - 1];
      forall f | 0 <= f < 6 ensures !Feed(m, s, b).flows[f].over && Feed(m, s, b).flows[f].size <= n {
        if m(s.cs, b).Go? {
          FlowActsOver(s.flows[f], f, m(s.cs, b).acts);
          FlowActsSize(s.flows[f], f, m(s.cs, b).acts);
        }
      }
    }
  }

  lemma {:induction false} FlowActsSize(w: Flow, f: Field, acts: seq<Action>)
    ensures FlowActs(w, f, acts).size <= w.size
    decreases |acts|
  {
    if acts != [] {
      FlowActsSize(FlowAct(w, f, acts[0]), f, acts[1..]);
    }
  }

  /** A length header, a chunk header, an empty chunk, and one more byte. */
  function BothHeaders(): (r: seq<byte>)
    ensures |r| == 11
  {
    [LENGTH, COLON, LF, CHUNKED, COLON, LF, LF, ZERO, LF, LF, LENGTH]
  }

  ghost predicate Stands(s: Stream<Control>, cs: Control, due: bool) {
    |s.flows| == 6 && s.status.Running? && s.eat == 0 && s.cs == cs && s.due == due
  }

  lemma Moves(s: Stream<Control>, cs: Control, due: bool, b: byte, next: Control)
    requires Stands(s, cs, due) && Grammar(true)(cs, b).Go? && !Grammar(true)(cs, b).stop && Grammar(true)(cs, b).next == next
    ensures Stands(Feed(Grammar(true), s, b), next, if cs.phase.Last? || (cs.phase.Start? && b == LF && !cs.chunked) then cs.due else due)
  {
    DueOfMove(true, cs, b, due);
  }

  /** The states that the request goes through. */
  function Through(i: nat): Control
    requires i <= 11
  {
    if i == 0 then FRESH
    else if i == 1 then Control(Name, false, false, true, 0)
    else if i == 2 then Control(Separator, false, false, true, 0)
    else if i == 3 then Control(Start, true, false, true, 0)
    else if i == 4 then Control(Name, false, true, true, 0)
    else if i == 5 then Control(Separator, false, true, true, 0)
    else if i == 6 then Control(Start, true, true, true, 0)
    else if i <= 8 then Control(Size, false, true, true, 0)
    else if i == 9 then Control(Last, false, true, true, 0)
    else if i == 10 then FRESH
    else Control(Name, false, false, true, 0)
  }

  lemma {:induction false} GoesThrough(i: nat)
    requires i <= 11
    ensures Stands(Fed(Grammar(true), Source(FRESH), BothHeaders(), i), Through(i), i >= 10)
  {
    if i > 0 {
      GoesThrough(i - 1);
      var b := BothHeaders()[i - 1];
      assert Grammar(true)(Through(i - 1), b).Go? && Grammar(true)(Through(i - 1), b).next == Through(i);
      Moves(Fed(Grammar(true), Source(FRESH), BothHeaders(), i - 1), Through(i - 1), i - 1 >= 10, b, Through(i));
    }
  }

  lemma BothHeadersGoOn()
    ensures !StopsWhenDue(Grammar(true), Source(FRESH), BothHeaders()) && !Fails(FeedAll(Grammar(true), Source(FRESH), BothHeaders()))
  {
    GoesThrough(10);
    GoesThrough(11);
    ShortInputFits(Grammar(true), FRESH, BothHeaders(), 11);
  }

  /** A request with both a content length and chunks: the parser does not stop behind it, but the page loop does, so how
      much is consumed depends on the pages. */
  lemma LengthAndChunksDependOnPages()
    ensures !CutFreeLoop(Grammar(true), FRESH, BothHeaders())
  {
    AlwaysDisciplined(true, BothHeaders());
    AlwaysStopsAtBody(true);
    BothHeadersGoOn();
    LoopIsCutFreeExactly(Grammar(true), FRESH, BothHeaders());
  }

  /** For the same reason what is parsed of it depends on when it arrives. */
  lemma LengthAndChunksDependOnTiming()
    ensures !TimeFree(Grammar(true), Conv(Source(FRESH), 0, []), BothHeaders())
  {
    BothHeadersGoOn();
    TimingExactly(Grammar(true), Conv(Source(FRESH), 0, []), BothHeaders());
  }

  /** Without chunks no input of header lines depends on its timing. */
  lemma HeaderLinesAreTimeFree(input: seq<byte>)
    ensures TimeFree(Grammar(false), Conv(Source(FRESH), 0, []), input)
  {
    StopsWithoutChunks();
    DueStopsHere(Grammar(false), Source(FRESH), input);
    TimingExactly(Grammar(false), Conv(Source(FRESH), 0, []), input);
  }
}
