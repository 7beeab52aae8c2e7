/** `HttpConnection::do_parse`: the parser is run over the pages of the input buffer, and what it consumed is
    popped. */
module HttpConnection {
  import opened Basics
  import opened Pages
  import opened Parser
  import opened ParserTheorems
  import opened ParserExact
  import BufferClass
  import opened Conversation

  /** The strings a connection accumulates from one field: the current one, and those already read by a finished
      header line or request. */
  datatype Gathered = Gathered(current: seq<byte>, finished: seq<seq<byte>>)

  function Gather(log: seq<Item>): Gathered {
    if log == [] then Gathered([], [])
    else
      var g := Gather(log[..|log| - 1]);
      match log[|log| - 1]
      case Byte(b) => g.(current := g.current + [b])
      case _ => Gathered([], g.finished + [g.current])
  }

  /** A log with its events all alike. */
  function Plain(log: seq<Item>): seq<Item> {
    seq(|log|, i requires 0 <= i < |log| => if log[i].Byte? then log[i] else Line)
  }

  function Lines(finished: seq<seq<byte>>): seq<Item> {
    if finished == [] then [] else Lines(finished[..|finished| - 1]) + Bytes(finished[|finished| - 1]) + [Line]
  }

  /** The log of a field from which these strings have been gathered. */
  function Replay(g: Gathered): seq<Item> {
    Lines(g.finished) + Bytes(g.current)
  }

  /** Gathering splits the log at its events and loses nothing: the log can be told from what was gathered. */
  lemma {:induction false} GatherReplays(log: seq<Item>)
    ensures Replay(Gather(log)) == Plain(log)
  {
    if log != [] {
      var front, x := log[..|log| - 1], log[|log| - 1];
      GatherReplays(front);
      var g := Gather(front);
      assert Plain(log) == Plain(front) + [if x.Byte? then x else Line];
      if x.Byte? {
        assert Bytes(g.current + [x.b]) == Bytes(g.current) + [x];
      } else {
        assert (g.finished + [g.current])[..|g.finished|] == g.finished;
        assert Bytes([]) == [];
      }
    }
  }

  /** Bytes go to the current string. */
  lemma {:induction false} GatherBytes(log: seq<Item>, s: seq<byte>)
    ensures Gather(log + Bytes(s)) == Gathered(Gather(log).current + s, Gather(log).finished)
    decreases |s|
  {
    if s == [] {
      assert log + Bytes(s) == log;
      assert Gather(log).current + s == Gather(log).current;
    } else {
      var front, b := s[..|s| - 1], s[|s| - 1];
      GatherBytes(log, front);
      var all := log + Bytes(s);
      assert all[..|all| - 1] == log + Bytes(front) && all[|all| - 1] == Byte(b);
      assert Gather(log).current + front + [b] == Gather(log).current + s;
    }
  }

  /** An event finishes the current string and clears it. */
  lemma GatherEvent(log: seq<Item>, x: Item)
    requires !x.Byte?
    ensures Gather(log + [x]) == Gathered([], Gather(log).finished + [Gather(log).current])
  {
    assert (log + [x])[..|log|] == log;
  }

  /** Whatever strings are sent, each followed by an event, are gathered as they are. */
  lemma {:induction false} ReplayGathers(g: Gathered)
    ensures Gather(Replay(g)) == g
    decreases |g.finished|
  {
    if g.finished == [] {
      GatherBytes([], g.current);
      assert Replay(g) == [] + Bytes(g.current) && [] + g.current == g.current;
    } else {
      var front, last := g.finished[..|g.finished| - 1], g.finished[|g.finished| - 1];
      ReplayGathers(Gathered(last, front));
      GatherEvent(Replay(Gathered(last, front)), Line);
      GatherBytes(Lines(g.finished), g.current);
      assert [] + g.current == g.current && front + [last] == g.finished;
    }
  }

  /** However a disciplined input is cut, the connection gathers the same strings from every field. */
  lemma GatheredAlike<S(!new)>(m: Machine<S>, cs: S, cuts: seq<seq<byte>>, cuts': seq<seq<byte>>, f: Field)
    requires Flat(cuts) == Flat(cuts') && Disciplined(m, Source(cs), Flat(cuts))
    requires !Run(m, Initial(cs), cuts).status.Failed?
    ensures !Run(m, Initial(cs), cuts').status.Failed?
    ensures Gather(Run(m, Initial(cs), cuts).slots[f].got) == Gather(Run(m, Initial(cs), cuts').slots[f].got)
  {
    CutsDoNotMatter(m, cs, cuts, cuts');
  }

  /** The parser stops in the middle of its input only for a body with a content length. */
  ghost predicate StopsAtBody<S(!new)>(m: Machine<S>) {
    forall cs, b :: m(cs, b).Go? && m(cs, b).stop ==> DueAfter(false, m(cs, b).acts)
  }

  /** What `http_parser_execute` returns: nothing when a field has outgrown the limit. */
  function Returned<S>(st: Parser<S>): nat {
    if AnyFailed(st.slots) then 0 else st.pos
  }

  lemma {:induction false} DueWins(due: bool, acts: seq<Action>)
    ensures DueAfter(false, acts) ==> DueAfter(due, acts)
    decreases |acts|
  {
    if acts != [] {
      DueWins(if acts[0].Complete? then acts[0].due else due, acts[1..]);
      if !acts[0].Complete? {
        DueWins(due, acts[1..]);
      }
    }
  }

  lemma {:induction false} TurnsDue<S(!new)>(m: Machine<S>, st: Parser<S>, seg: seq<byte>)
    requires Ok(st, seg) && StopsAtBody(m) && (st.status.Halted? ==> st.due)
    ensures var r := Turns(m, st, seg); r.status.Halted? ==> r.due
    decreases !st.status.Failed?, |seg| - st.pos
  {
    if st.status.Running? && st.pos < |seg| {
      if m(st.cs, seg[st.pos]).Go? {
        DueWins(st.due, m(st.cs, seg[st.pos]).acts);
      }
      TurnsDue(m, Turn(m, st, seg), seg);
    }
  }

  lemma HaltsDue<S(!new)>(m: Machine<S>, st: Parser<S>, seg: seq<byte>)
    requires |st.slots| == 6 && st.status.Running? && StopsAtBody(m)
    ensures var r := Execute(m, st, seg); r.status.Halted? ==> r.due
  {
    TurnsDue(m, Enter(st, seg), seg);
  }

  /** One turn takes the bytes it moves over. */
  lemma TurnTakes<S(!new)>(m: Machine<S>, st: Parser<S>, s0: Stream<S>, seg: seq<byte>, s: Stream<S>, r: Parser<S>)
    requires |s0.flows| == 6 && InStep(m, st, s0, seg) && st.status.Running? && st.pos < |seg|
    requires s == Fed(m, s0, seg, st.pos) && r == Turn(m, st, seg) && !r.status.Failed?
    ensures Fed(m, s0, seg, r.pos).taken == s.taken + (r.pos - st.pos)
  {
    if m(st.cs, seg[st.pos]).Eat? {
      FedEats(m, s0, seg, s, m(st.cs, seg[st.pos]).next, m(st.cs, seg[st.pos]).n, st.pos, r.pos);
    } else {
      GoTakes(m, st, s, seg);
    }
  }

  lemma GoTakes<S(!new)>(m: Machine<S>, st: Parser<S>, s: Stream<S>, seg: seq<byte>)
    requires Ok(st, seg) && Follows(st, s, seg) && st.status.Running? && st.pos < |seg| && m(st.cs, seg[st.pos]).Go?
    ensures Turn(m, st, seg).pos == st.pos + 1 && Feed(m, s, seg[st.pos]).taken == s.taken + 1
  {
  }

  lemma {:induction false} TurnsTake<S(!new)>(m: Machine<S>, st: Parser<S>, s0: Stream<S>, seg: seq<byte>)
    requires |s0.flows| == 6 && InStep(m, st, s0, seg) && (Disciplined(m, s0, seg) || |seg| <= 1)
    ensures var r := Turns(m, st, seg);
      !r.status.Failed? ==> st.pos <= r.pos && Fed(m, s0, seg, r.pos).taken == Fed(m, s0, seg, st.pos).taken + (r.pos - st.pos)
    decreases !st.status.Failed?, |seg| - st.pos
  {
    if st.status.Running? && st.pos < |seg| {
      var mid := Turn(m, st, seg);
      TurnInStep(m, st, s0, seg);
      TurnsTake(m, mid, s0, seg);
      if !mid.status.Failed? {
        TurnTakes(m, st, s0, seg, Fed(m, s0, seg, st.pos), mid);
      }
    }
  }

  lemma EnterTakes<S(!new)>(m: Machine<S>, st: Parser<S>, s: Stream<S>, seg: seq<byte>)
    requires Agree(st, s) && st.status.Running?
    ensures var r := Enter(st, seg); Fed(m, s, seg, r.pos).taken == s.taken + r.pos
  {
    FedEats(m, s, seg, s, s.cs, s.eat, 0, Enter(st, seg).pos);
  }

  /** A segment advances the stream by what is returned, and by all of it unless the parser stopped. */
  lemma ExecuteTakes<S(!new)>(m: Machine<S>, st: Parser<S>, s: Stream<S>, seg: seq<byte>)
    requires Agree(st, s) && Disciplined(m, s, seg) && st.status.Running? && StopsAtBody(m)
    ensures var r, s' := Execute(m, st, seg), FeedAll(m, s, seg);
      !r.status.Failed? ==>
        && Returned(r) == s'.taken - s.taken && Returned(r) <= |seg| && (r.status.Running? ==> Returned(r) == |seg|)
        && (r.status.Halted? ==> r.due)
  {
    EnterInStep(m, st, s, seg);
    EnterTakes(m, st, s, seg);
    var st0 := Enter(st, seg);
    TurnsInStep(m, st0, s, seg);
    TurnsTake(m, st0, s, seg);
    TurnsEnd(m, st0, seg);
    HaltsDue(m, st, seg);
    var r := Turns(m, st0, seg);
    if !r.status.Failed? {
      FedLater(m, s, seg, r.pos, |seg|);
    }
  }

  // ------------------------------------------------------------ the page loop

  /** What the loop over the segments does: it stops behind a request whose body is due, or at an error. */
  function ParseSegments<S(!new)>(m: Machine<S>, st: Parser<S>, segs: seq<seq<byte>>): (r: (Parser<S>, nat))
    requires |st.slots| == 6
    ensures |r.0.slots| == 6
    decreases |segs|
  {
    if segs == [] then (st, 0)
    else
      var mid := Execute(m, st, segs[0]);
      if mid.due || mid.status.Failed? then (mid, Returned(mid))
      else
        var (r, n) := ParseSegments(m, mid, segs[1..]);
        (r, Returned(mid) + n)
  }

  /** Once the parser has stopped or failed, the rest of the input changes nothing. */
  lemma RestIsIgnored<S(!new)>(m: Machine<S>, s: Stream<S>, done: seq<byte>, rest: seq<byte>)
    requires |s.flows| == 6
    ensures !FeedAll(m, s, done).status.Running? || rest == [] ==> FeedAll(m, s, done + rest) == FeedAll(m, s, done)
    ensures Fails(FeedAll(m, s, done)) ==> Fails(FeedAll(m, s, done + rest))
  {
    FedPrefix(m, s, done, rest, |done|);
    FedLater(m, s, done + rest, |done|, |done + rest|);
    assert rest == [] ==> done + rest == done;
  }

  /** The parser has seen what the stream has seen, and has consumed what the stream has taken. */
  ghost predicate Consumes<S(!new)>(r: Parser<S>, n: nat, s: Stream<S>, end: Stream<S>, size: nat) {
    && Agree(r, end)
    && (!r.status.Failed? ==>
          && n == end.taken - s.taken && n <= size && (r.status.Running? ==> n == size) && (r.status.Halted? ==> r.due))
  }

  lemma SegmentConsumes<S(!new)>(m: Machine<S>, s: Stream<S>, st: Parser<S>, seg: seq<byte>)
    requires Agree(st, s) && st.status.Running? && StopsAtBody(m) && Disciplined(m, s, seg)
    ensures var r := Execute(m, st, seg); Consumes(r, Returned(r), s, FeedAll(m, s, seg), |seg|)
  {
    ExecuteAgrees(m, st, s, seg);
    ExecuteTakes(m, st, s, seg);
  }

  /** However the input is cut into segments, the loop consumes what the stream takes. */
  lemma {:induction false} SegmentsConsume<S(!new)>(m: Machine<S>, s: Stream<S>, st: Parser<S>, segs: seq<seq<byte>>)
    requires Agree(st, s) && st.status.Running? && StopsAtBody(m)
    requires Disciplined(m, s, Flat(segs)) && StopsWhenDue(m, s, Flat(segs))
    ensures var (r, n) := ParseSegments(m, st, segs); Consumes(r, n, s, FeedAll(m, s, Flat(segs)), |Flat(segs)|)
    decreases |segs|
  {
    if segs != [] {
      var seg, rest := segs[0], Flat(segs[1..]);
      DisciplinedSplit(m, s, seg, rest);
      DueSplit(m, s, seg, rest);
      SegmentConsumes(m, s, st, seg);
      var mid, s1 := Execute(m, st, seg), FeedAll(m, s, seg);
      if mid.due || mid.status.Failed? {
        RestIsIgnored(m, s, seg, rest);
      } else {
        SegmentsConsume(m, s1, mid, segs[1..]);
        FeedFlat(m, s, segs);
      }
    }
  }

  /** The page loop of `do_parse`. */
  method ParsePages<S(!new)>(m: Machine<S>, st: Parser<S>, P: PageSize, b: Paged) returns (r: Parser<S>, n: nat)
    requires Valid(P, b) && |st.slots| == 6 && st.status.Running? && StopsAtBody(m)
    ensures (r, n) == ParseSegments(m, st, Segments(P, b))
  {
    r, n := st, 0;
    ghost var all := ParseSegments(m, st, Segments(P, b));
    ghost var rest := Segments(P, b);
    for i := 0 to |b.pages|
      invariant r.status.Running? && |r.slots| == 6 && rest == Segments(P, b)[i..]
      invariant all.0 == ParseSegments(m, r, rest).0 && all.1 == n + ParseSegments(m, r, rest).1
    {
      var seg := Segment(P, b, i);
      assert rest[0] == seg;
      HaltsDue(m, r, seg);
      r := RunSegment(m, r, seg);
      n := n + Returned(r);
      if r.due || r.status.Failed? {
        return;
      }
      rest := rest[1..];
    }
  }

  // ------------------------------------------------------------ when the loop depends on the cutting

  /** Cut where a request with a content length ends, the loop stops at the cut. */
  lemma StopsAtCut<S(!new)>(m: Machine<S>, cs: S, a: seq<byte>, b: seq<byte>)
    requires StopsAtBody(m) && Disciplined(m, Source(cs), a) && FeedAll(m, Source(cs), a).due && !Fails(FeedAll(m, Source(cs), a))
    ensures ParseSegments(m, Initial(cs), [a, b]).1 <= |a|
  {
    InitialAgrees(cs);
    SegmentConsumes(m, Source(cs), Initial(cs), a);
  }

  /** How much the loop consumes does not depend on the cutting. */
  ghost predicate CutFreeLoop<S(!new)>(m: Machine<S>, cs: S, input: seq<byte>) {
    forall cuts :: Flat(cuts) == input ==> ParseSegments(m, Initial(cs), cuts).1 == ParseSegments(m, Initial(cs), [input]).1
  }

  lemma UncutGoesOn<S(!new)>(m: Machine<S>, cs: S, input: seq<byte>, i: nat)
    requires StopsAtBody(m) && Disciplined(m, Source(cs), input) && !Fails(FeedAll(m, Source(cs), input))
    requires i < |input| && Fed(m, Source(cs), input, i).status.Running?
    ensures ParseSegments(m, Initial(cs), [input]).1 > i
  {
    var s := Source(cs);
    InitialAgrees(cs);
    SegmentConsumes(m, s, Initial(cs), input);
    GoesPast(m, s, input, i);
    OneSegment(m, Initial(cs), input);
  }

  lemma OneSegment<S(!new)>(m: Machine<S>, st: Parser<S>, seg: seq<byte>)
    requires |st.slots| == 6
    ensures ParseSegments(m, st, [seg]).1 == Returned(Execute(m, st, seg))
  {
  }

  /** A stream that is running at `i` takes the next byte, unless it fails. */
  lemma GoesPast<S(!new)>(m: Machine<S>, s: Stream<S>, input: seq<byte>, i: nat)
    requires |s.flows| == 6 && i < |input| && Fed(m, s, input, i).status.Running? && !Fails(FeedAll(m, s, input))
    ensures FeedAll(m, s, input).taken > s.taken + i
  {
    FedTaken(m, s, input, i);
    FedLater(m, s, input, i + 1, |input|);
    TakenGrows(m, s, input, i + 1, |input|);
  }

  lemma FlatTwo(a: seq<byte>, b: seq<byte>)
    ensures Flat([a, b]) == a + b
  {
    FlatConcat([a], [b]);
    FlatOne([a]);
    FlatOne([b]);
    assert [a, b] == [a] + [b];
  }

  /** A cut behind a request with a content length shows. */
  lemma CutAtDue<S(!new)>(m: Machine<S>, cs: S, a: seq<byte>, b: seq<byte>)
    requires StopsAtBody(m) && Disciplined(m, Source(cs), a + b) && !Fails(FeedAll(m, Source(cs), a + b)) && b != []
    ensures var s := Fed(m, Source(cs), a + b, |a|); s.due && s.status.Running? ==> !CutFreeLoop(m, cs, a + b)
  {
    var s := Source(cs);
    if Fed(m, s, a + b, |a|).due && Fed(m, s, a + b, |a|).status.Running? {
      DisciplinedSplit(m, s, a, b);
      FedPrefix(m, s, a, b, |a|);
      RestIsIgnored(m, s, a, b);
      StopsAtCut(m, cs, a, b);
      UncutGoesOn(m, cs, a + b, |a|);
      FlatTwo(a, b);
    }
  }

  /** The loop consumes the same number of bytes for every cutting exactly when the parser stops at every request
      with a content length, unless that request ends the input. */
  lemma LoopIsCutFreeExactly<S(!new)>(m: Machine<S>, cs: S, input: seq<byte>)
    requires StopsAtBody(m) && Disciplined(m, Source(cs), input) && !Fails(FeedAll(m, Source(cs), input))
    ensures CutFreeLoop(m, cs, input) <==> StopsWhenDue(m, Source(cs), input)
  {
    if StopsWhenDue(m, Source(cs), input) {
      FlatOne([input]);
      forall cuts | Flat(cuts) == input ensures ParseSegments(m, Initial(cs), cuts).1 == ParseSegments(m, Initial(cs), [input]).1 {
        SameConsumption(m, cs, cuts, [input]);
      }
    } else {
      DueIsSeen(m, cs, input);
    }
  }

  lemma SameConsumption<S(!new)>(m: Machine<S>, cs: S, cuts: seq<seq<byte>>, cuts': seq<seq<byte>>)
    requires StopsAtBody(m) && Flat(cuts) == Flat(cuts') && Disciplined(m, Source(cs), Flat(cuts))
    requires StopsWhenDue(m, Source(cs), Flat(cuts)) && !Fails(FeedAll(m, Source(cs), Flat(cuts)))
    ensures ParseSegments(m, Initial(cs), cuts).1 == ParseSegments(m, Initial(cs), cuts').1
  {
    InitialAgrees(cs);
    SegmentsConsume(m, Source(cs), Initial(cs), cuts);
    SegmentsConsume(m, Source(cs), Initial(cs), cuts');
  }

  lemma DueIsSeen<S(!new)>(m: Machine<S>, cs: S, input: seq<byte>)
    requires StopsAtBody(m) && Disciplined(m, Source(cs), input) && !Fails(FeedAll(m, Source(cs), input))
    ensures StopsWhenDue(m, Source(cs), input) || !CutFreeLoop(m, cs, input)
  {
    if i :| 0 <= i < |input| && Fed(m, Source(cs), input, i).due && Fed(m, Source(cs), input, i).status.Running? {
      assert input[..i] + input[i..] == input;
      CutAtDue(m, cs, input[..i], input[i..]);
    }
  }

  // ------------------------------------------------------------ the connection

  /** A segment is never left beyond its end. */
  lemma ReturnedInside<S(!new)>(m: Machine<S>, st: Parser<S>, seg: seq<byte>)
    requires |st.slots| == 6 && st.status.Running?
    ensures Returned(Execute(m, st, seg)) <= |seg|
  {
    assert Ok(Turns(m, Enter(st, seg), seg), seg);
  }

  lemma {:induction false} ConsumedInside<S(!new)>(m: Machine<S>, st: Parser<S>, segs: seq<seq<byte>>)
    requires |st.slots| == 6 && st.status.Running? && StopsAtBody(m)
    ensures ParseSegments(m, st, segs).1 <= |Flat(segs)|
    ensures var r := ParseSegments(m, st, segs).0; r.status.Halted? ==> r.due
    decreases |segs|
  {
    if segs != [] {
      var mid := Execute(m, st, segs[0]);
      ReturnedInside(m, st, segs[0]);
      HaltsDue(m, st, segs[0]);
      if !mid.due && !mid.status.Failed? {
        ConsumedInside(m, mid, segs[1..]);
      }
    }
  }

  /** What `do_parse` does to the parser, the number of bytes to skip and the buffered bytes; `cuts` is how the pages
      cut what is parsed. */
  ghost predicate DidParse<S(!new)>(m: Machine<S>, st: Parser<S>, skip: nat, input: seq<byte>, cuts: seq<seq<byte>>,
                                    st': Parser<S>, skip': nat, input': seq<byte>)
    requires |st.slots| == 6
  {
    if st.due then st' == st && skip' == skip && input' == input
    else if skip > 0 && |input| <= skip then st' == st && skip' == skip - |input| && input' == []
    else
      var rest := input[Min(skip, |input|)..];
      var (r, n) := ParseSegments(m, st, cuts);
      && Flat(cuts) == rest && st' == r && skip' == 0 && n <= |rest| && input' == rest[n..]
  }

  /** The conversation `c` is what the parser, the bytes to skip and the buffered bytes stand for. */
  ghost predicate StandsFor<S(!new)>(st: Parser<S>, skip: nat, input: seq<byte>, c: Conv<S>) {
    && Agree(st, c.s) && (st.status.Halted? ==> st.due)
    && (!st.status.Failed? ==> skip == c.skip && input == c.unread)
  }

  /** The bytes that `do_parse` hands to the parser are disciplined, and the parser stops at a due body among them. */
  ghost predicate Tame<S(!new)>(m: Machine<S>, c: Conv<S>)
    requires |c.s.flows| == 6
  {
    Stops(m, c) && (!c.s.due && |c.unread| > c.skip ==> Disciplined(m, c.s, c.unread[c.skip..]))
  }

  /** `do_parse` does to the conversation what parsing does to it, however the pages lie. */
  lemma ParseRefines<S(!new)>(m: Machine<S>, st: Parser<S>, c: Conv<S>, cuts: seq<seq<byte>>, st': Parser<S>, skip': nat, input': seq<byte>)
    requires StandsFor(st, c.skip, c.unread, c) && !st.status.Failed? && StopsAtBody(m) && Tame(m, c)
    requires DidParse(m, st, c.skip, c.unread, cuts, st', skip', input')
    ensures StandsFor(st', skip', input', Parsed(m, c))
  {
    if !c.s.due && !(c.skip > 0 && |c.unread| <= c.skip) {
      var rest := c.unread[c.skip..];
      assert rest == c.unread[Min(c.skip, |c.unread|)..];
      RestRefines(m, st, c.s, rest, cuts);
      if c.unread == [] {
        assert rest == [] && FeedAll(m, c.s, rest) == c.s;
      }
    }
  }

  lemma RestRefines<S(!new)>(m: Machine<S>, st: Parser<S>, s: Stream<S>, rest: seq<byte>, cuts: seq<seq<byte>>)
    requires Agree(st, s) && st.status.Running? && StopsAtBody(m) && !s.due && Flat(cuts) == rest
    requires rest != [] ==> Disciplined(m, s, rest) && StopsWhenDue(m, s, rest)
    ensures var (r, n) := ParseSegments(m, st, cuts); Consumes(r, n, s, FeedAll(m, s, rest), |rest|)
  {
    SegmentsConsume(m, s, st, cuts);
  }

  class HttpConnection<S(!new)> {
    const m: Machine<S>
    const buffer: BufferClass.Buffer
    var parser: Parser<S>
    var bytesShouldSkip: nat

    constructor (m: Machine<S>, cs: S, buffer: BufferClass.Buffer)
      ensures this.m == m && this.buffer == buffer && parser == Initial(cs) && bytesShouldSkip == 0
    {
      this.m, this.buffer := m, buffer;
      parser, bytesShouldSkip := Initial(cs), 0;
    }

    ghost function Input(): seq<byte>
      requires buffer.Ok()
      reads this, buffer, buffer.cow
    {
      Contents(buffer.P, buffer.View())
    }

    /** The parser is not stopped without a due body. */
    ghost predicate Ready()
      reads this, buffer, buffer.cow
    {
      buffer.Ok() && |parser.slots| == 6 && !parser.status.Failed? && (parser.status.Halted? ==> parser.due)
    }

    twostate predicate StoreKept()
      reads this, buffer
    {
      buffer.cow == old(buffer.cow) || fresh(buffer.cow)
    }

    method Drop(n: nat)
      requires buffer.Ok() && n <= buffer.size
      modifies buffer, buffer.cow
      ensures buffer.Ok() && StoreKept() && Input() == old(Input())[n..]
    {
      PopRefines(buffer.P, buffer.View(), n);
      var _ := buffer.Pop(n);
    }

    /** `do_parse`, on any input. */
    method DoParse() returns (ok: bool, ghost cuts: seq<seq<byte>>)
      requires Ready() && StopsAtBody(m)
      modifies this`parser, this`bytesShouldSkip, buffer, buffer.cow
      ensures buffer.Ok() && StoreKept() && |parser.slots| == 6 && (parser.status.Halted? ==> parser.due)
      ensures ok == !parser.status.Failed?
      ensures DidParse(m, old(parser), old(bytesShouldSkip), old(Input()), cuts, parser, bytesShouldSkip, Input())
    {
      cuts := [];
      if parser.due {
        return true, cuts;
      }
      if bytesShouldSkip != 0 {
        if buffer.size > bytesShouldSkip {
          Drop(bytesShouldSkip);
          bytesShouldSkip := 0;
        } else {
          bytesShouldSkip := bytesShouldSkip - buffer.size;
          Drop(buffer.size);
          return true, cuts;
        }
      }
      var b := Paged(buffer.cow.pages, buffer.left, buffer.right, buffer.size);
      cuts := Segments(buffer.P, b);
      SegmentsCover(buffer.P, b);
      ConsumedInside(m, parser, cuts);
      var r, n := ParsePages(m, parser, buffer.P, b);
      parser := r;
      Drop(n);
      ok := !parser.status.Failed?;
    }

    /** This connection is at the point `c` of its conversation. */
    ghost predicate At(c: Conv<S>)
      reads this, buffer, buffer.cow
    {
      buffer.Ok() && StandsFor(parser, bytesShouldSkip, Input(), c)
    }

    /** `do_parse` on disciplined input: the conversation goes on as parsing says. */
    method ParseMore(ghost c: Conv<S>) returns (ok: bool)
      requires At(c) && !parser.status.Failed? && StopsAtBody(m) && Tame(m, c)
      modifies this`parser, this`bytesShouldSkip, buffer, buffer.cow
      ensures At(Parsed(m, c)) && StoreKept() && ok == !parser.status.Failed?
    {
      ghost var st := parser;
      ghost var cuts;
      ok, cuts := DoParse();
      ParseRefines(m, st, c, cuts, parser, bytesShouldSkip, Input());
    }

    /** Reads from the socket until `chunk` is buffered; a read takes what fits the last page and a spare one. */
    method Receive(chunk: seq<byte>)
      requires buffer.Ok()
      modifies buffer, buffer.cow
      ensures buffer.Ok() && StoreKept() && Input() == old(Input()) + chunk
    {
      var rest := chunk;
      ghost var all := Input() + chunk;
      while rest != []
        invariant buffer.Ok() && StoreKept() && Input() + rest == all
        decreases |rest|
      {
        var n := Min(|rest|, buffer.right + buffer.P);
        ReadRefines(buffer.P, buffer.View(), rest[..n]);
        assert Input() + rest == Input() + rest[..n] + rest[n..];
        var _ := buffer.ReadFromFd(Some(rest[..n]));
        rest := rest[n..];
      }
    }

    /** A handler has answered the request whose body was due, and has left `skip` bytes of the body unread. */
    method FinishRequest(skip: nat, ghost c: Conv<S>)
      requires At(c) && !parser.status.Failed? && parser.due
      modifies this`parser, this`bytesShouldSkip
      ensures At(Resumed(c, skip)) && !parser.status.Failed?
    {
      parser := parser.(status := Running, due := false);
      bytesShouldSkip := skip;
    }

    /** One event of a session. */
    method Handle(e: Event, ghost c: Conv<S>)
      requires At(c) && !parser.status.Failed? && StopsAtBody(m) && Conversation.Enabled(c, e) && (e.Parse? ==> Tame(m, c))
      modifies this`parser, this`bytesShouldSkip, buffer, buffer.cow
      ensures At(Conversation.Apply(m, c, e)) && StoreKept()
    {
      match e {
        case Arrive(chunk) => Receive(chunk);
        case Parse => var _ := ParseMore(c);
        case Handled(skip) => FinishRequest(skip, c);
      }
    }

    /** A whole session of arrivals, calls of `do_parse` and handled bodies, up to the first failure: the connection
        goes through the conversation, whatever the sizes of the reads and the pages. */
    method Session(events: seq<Event>, ghost c: Conv<S>) returns (n: nat)
      requires At(c) && !parser.status.Failed? && StopsAtBody(m)
      requires Orderly(m, c, events)
      modifies this`parser, this`bytesShouldSkip, buffer, buffer.cow
      ensures n <= |events| && (n == |events| || parser.status.Failed?)
      ensures At(Conversation.Final(m, c, events[..n]))
    {
      n := 0;
      ghost var now := c;
      assert events[..0] == [] && events[0..] == events;
      while n < |events| && !parser.status.Failed?
        invariant n <= |events| && StoreKept() && At(now)
        invariant now == Conversation.Final(m, c, events[..n]) && Orderly(m, now, events[n..])
      {
        NextEvent(m, c, events, n);
        Handle(events[n], now);
        now := Conversation.Apply(m, now, events[n]);
        n := n + 1;
      }
    }
  }

  /** Handlers finish only requests whose body is due, and every call of `do_parse` meets tame input. */
  ghost predicate Orderly<S(!new)>(m: Machine<S>, c: Conv<S>, events: seq<Event>)
    requires |c.s.flows| == 6
    decreases |events|
  {
    events == []
    || (Conversation.Enabled(c, events[0]) && (events[0].Parse? ==> Tame(m, c)) && Orderly(m, Conversation.Apply(m, c, events[0]), events[1..]))
  }

  lemma NextEvent<S(!new)>(m: Machine<S>, c: Conv<S>, events: seq<Event>, n: nat)
    requires |c.s.flows| == 6 && n < |events| && Orderly(m, Conversation.Final(m, c, events[..n]), events[n..])
    ensures var now := Conversation.Final(m, c, events[..n]);
      && Conversation.Enabled(now, events[n]) && (events[n].Parse? ==> Tame(m, now))
      && Orderly(m, Conversation.Apply(m, now, events[n]), events[n + 1..])
      && Conversation.Final(m, c, events[..n + 1]) == Conversation.Apply(m, now, events[n])
  {
    assert events[n..][0] == events[n] && events[n..][1..] == events[n + 1..];
    FinalSnoc(m, c, events, n);
  }

  lemma {:induction false} FinalSnoc<S(!new)>(m: Machine<S>, c: Conv<S>, events: seq<Event>, n: nat)
    requires |c.s.flows| == 6 && n < |events|
    ensures Conversation.Final(m, c, events[..n + 1]) == Conversation.Apply(m, Conversation.Final(m, c, events[..n]), events[n])
    decreases n
  {
    var e := events[0];
    if n == 0 {
      assert events[..1] == [e] && events[..0] == [] && [e][1..] == [];
    } else {
      FinalSnoc(m, Conversation.Apply(m, c, e), events[1..], n - 1);
      assert events[..n + 1][1..] == events[1..][..n] && events[..n][1..] == events[1..][..n - 1];
    }
  }
}
