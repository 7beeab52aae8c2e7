/** A keep-alive connection as its client sees it: bytes arrive, `do_parse` is called now and then, and a handler that is
    done with a request leaves a number of body bytes to be skipped. What is parsed does not depend on the timing. */
module Conversation {
  import opened Basics
  import opened Pages
  import opened Parser
  import opened ParserTheorems

  /** The stream that the parser follows, the body bytes still to be skipped, and the bytes that have arrived and were
      neither parsed nor skipped. */
  datatype Conv<S> = Conv(s: Stream<S>, skip: nat, unread: seq<byte>)

  datatype Event = Arrive(chunk: seq<byte>) | Parse | Handled(skip: nat)

  /** `do_parse`: nothing while a body is due; else bytes are skipped first, and the rest is parsed. */
  function Parsed<S(!new)>(m: Machine<S>, c: Conv<S>): (r: Conv<S>)
    requires |c.s.flows| == 6
    ensures |r.s.flows| == 6
  {
    if c.s.due then c
    else if |c.unread| <= c.skip then Conv(c.s, c.skip - |c.unread|, [])
    else
      var rest := c.unread[c.skip..];
      var s := FeedAll(m, c.s, rest);
      FedTaken(m, c.s, rest, |rest|);
      Conv(s, 0, rest[s.taken - c.s.taken..])
  }

  function Arrived<S>(c: Conv<S>, chunk: seq<byte>): Conv<S> {
    c.(unread := c.unread + chunk)
  }

  /** The handler is done with the request whose body was due; `skip` bytes of that body have not been read. */
  function Resumed<S>(c: Conv<S>, skip: nat): Conv<S> {
    Conv(c.s.(status := Running, due := false), skip, c.unread)
  }

  ghost predicate Enabled<S(!new)>(c: Conv<S>, e: Event) {
    e.Handled? ==> c.s.due
  }

  function Apply<S(!new)>(m: Machine<S>, c: Conv<S>, e: Event): (r: Conv<S>)
    requires |c.s.flows| == 6
    ensures |r.s.flows| == 6
  {
    match e
    case Arrive(chunk) => Arrived(c, chunk)
    case Parse => Parsed(m, c)
    case Handled(skip) => Resumed(c, skip)
  }

  ghost predicate Runs<S(!new)>(m: Machine<S>, c: Conv<S>, events: seq<Event>)
    requires |c.s.flows| == 6
    decreases |events|
  {
    events == [] || (Enabled(c, events[0]) && Runs(m, Apply(m, c, events[0]), events[1..]))
  }

  function Final<S(!new)>(m: Machine<S>, c: Conv<S>, events: seq<Event>): (r: Conv<S>)
    requires |c.s.flows| == 6
    ensures |r.s.flows| == 6
    decreases |events|
  {
    if events == [] then c else Final(m, Apply(m, c, events[0]), events[1..])
  }

  /** All bytes that arrive in a run, and all that the handlers leave to be skipped. */
  function Input(events: seq<Event>): seq<byte> {
    if events == [] then [] else (if events[0].Arrive? then events[0].chunk else []) + Input(events[1..])
  }

  function Skips(events: seq<Event>): seq<nat> {
    if events == [] then [] else (if events[0].Handled? then [events[0].skip] else []) + Skips(events[1..])
  }

  /** The run without any timing: everything has arrived, and a handler is done at once with each due body. */
  function Settled<S(!new)>(m: Machine<S>, c: Conv<S>, skips: seq<nat>): Conv<S>
    requires |c.s.flows| == 6
    decreases |skips|
  {
    var p := Parsed(m, c);
    if skips == [] || !p.s.due then p else Settled(m, Resumed(p, skips[0]), skips[1..])
  }

  /** The parser stops, before the end of the input, whenever a request with a content length is complete: no
      request has both a content length and chunks. */
  ghost predicate StopsWhenDue<S(!new)>(m: Machine<S>, s: Stream<S>, input: seq<byte>)
    requires |s.flows| == 6
  {
    forall i :: 0 <= i < |input| && Fed(m, s, input, i).due ==> !Fed(m, s, input, i).status.Running?
  }

  lemma DueSplit<S(!new)>(m: Machine<S>, s: Stream<S>, a: seq<byte>, b: seq<byte>)
    requires |s.flows| == 6 && StopsWhenDue(m, s, a + b)
    ensures StopsWhenDue(m, FeedAll(m, s, a), b)
    ensures FeedAll(m, s, a).due && FeedAll(m, s, a).status.Running? ==> b == []
  {
    forall i | 0 <= i < |b| ensures Fed(m, FeedAll(m, s, a), b, i).due ==> !Fed(m, FeedAll(m, s, a), b, i).status.Running? {
      FedConcat(m, s, a, b, i);
    }
    FedPrefix(m, s, a, b, |a|);
  }

  /** What `do_parse` parses of a conversation does so. */
  ghost predicate Stops<S(!new)>(m: Machine<S>, c: Conv<S>)
    requires |c.s.flows| == 6
  {
    !c.s.due && |c.unread| > c.skip ==> StopsWhenDue(m, c.s, c.unread[c.skip..])
  }

  /** And so does everything that is parsed as the conversation is settled. */
  ghost predicate StopsAll<S(!new)>(m: Machine<S>, c: Conv<S>, skips: seq<nat>)
    requires |c.s.flows| == 6
    decreases |skips|
  {
    Stops(m, c) && (skips == [] || !Parsed(m, c).s.due || StopsAll(m, Resumed(Parsed(m, c), skips[0]), skips[1..]))
  }

  /** Parsing early: what arrives later is parsed as if nothing had been parsed before. */
  lemma ParsedEarly<S(!new)>(m: Machine<S>, c: Conv<S>, x: seq<byte>)
    requires |c.s.flows| == 6 && Stops(m, Arrived(c, x))
    ensures Parsed(m, Arrived(Parsed(m, c), x)) == Parsed(m, Arrived(c, x)) && Stops(m, Arrived(Parsed(m, c), x))
  {
    if !c.s.due {
      if |c.unread| <= c.skip {
        SkippedEarly(m, c, x);
      } else {
        RestEarly(m, c, c.unread[c.skip..], x);
      }
    }
  }

  lemma SkippedEarly<S(!new)>(m: Machine<S>, c: Conv<S>, x: seq<byte>)
    requires |c.s.flows| == 6 && !c.s.due && |c.unread| <= c.skip
    ensures Parsed(m, Arrived(Parsed(m, c), x)) == Parsed(m, Arrived(c, x))
    ensures Stops(m, Arrived(c, x)) ==> Stops(m, Arrived(Parsed(m, c), x))
  {
    assert Arrived(Parsed(m, c), x) == Conv(c.s, c.skip - |c.unread|, x) by {
      assert [] + x == x;
    }
    DropSkipped(c.unread, x, c.skip);
    SameRest(m, Arrived(c, x), Conv(c.s, c.skip - |c.unread|, x));
  }

  /** Parsing sees what is behind the skipped bytes only. */
  lemma SameRest<S(!new)>(m: Machine<S>, c: Conv<S>, c': Conv<S>)
    requires |c.s.flows| == 6 && !c.s.due && c'.s == c.s && |c.unread| - c.skip == |c'.unread| - c'.skip
    requires |c.unread| > c.skip ==> c.unread[c.skip..] == c'.unread[c'.skip..]
    ensures Parsed(m, c) == Parsed(m, c') && (Stops(m, c) <==> Stops(m, c'))
  {
  }

  lemma DropSkipped(a: seq<byte>, x: seq<byte>, n: nat)
    requires |a| <= n
    ensures |a + x| == |a| + |x| && (|a| + |x| > n ==> (a + x)[n..] == x[n - |a|..])
  {
  }

  /** Feeding `rest` and then what is left of it with `x`. */
  lemma FedEarly<S(!new)>(m: Machine<S>, s: Stream<S>, rest: seq<byte>, x: seq<byte>, s1: Stream<S>, left: seq<byte>)
    requires |s.flows| == 6 && s1 == FeedAll(m, s, rest) && 0 <= s1.taken - s.taken <= |rest| && left == rest[s1.taken - s.taken..]
    ensures s1.status.Running? ==> left == [] && FeedAll(m, s, rest + x) == FeedAll(m, s1, x)
    ensures !s1.status.Running? ==> FeedAll(m, s, rest + x) == s1 && FeedAll(m, s1, left + x) == s1
  {
    FedTaken(m, s, rest, |rest|);
    FedConcat(m, s, rest, x, |x|);
    if !s1.status.Running? {
      FedLater(m, s1, x, 0, |x|);
      FedLater(m, s1, left + x, 0, |left + x|);
    }
  }

  lemma RestEarly<S(!new)>(m: Machine<S>, c: Conv<S>, rest: seq<byte>, x: seq<byte>)
    requires |c.s.flows| == 6 && Stops(m, Arrived(c, x)) && !c.s.due && |c.unread| > c.skip && rest == c.unread[c.skip..]
    ensures Parsed(m, Arrived(Parsed(m, c), x)) == Parsed(m, Arrived(c, x)) && Stops(m, Arrived(Parsed(m, c), x))
  {
    var s1 := FeedAll(m, c.s, rest);
    FedTaken(m, c.s, rest, |rest|);
    var t := s1.taken - c.s.taken;
    var left := rest[t..];
    FedEarly(m, c.s, rest, x, s1, left);
    assert (c.unread + x)[c.skip..] == rest + x;
    assert (rest + x)[t..] == left + x;
    DueSplit(m, c.s, rest, x);
    if !s1.status.Running? {
      StoppedEarly(m, Conv(s1, 0, left), x);
    } else if x == [] {
      assert c.unread + x == c.unread && left + x == left;
    } else {
      assert left + x == x && x[0..] == x;
      RunningEarly(m, c, rest, x, s1);
    }
  }

  lemma RunningEarly<S(!new)>(m: Machine<S>, c: Conv<S>, rest: seq<byte>, x: seq<byte>, s1: Stream<S>)
    requires |c.s.flows| == 6 && !c.s.due && |c.unread| > c.skip && rest == c.unread[c.skip..] && (c.unread + x)[c.skip..] == rest + x
    requires s1 == FeedAll(m, c.s, rest) && s1.status.Running? && !s1.due && FeedAll(m, c.s, rest + x) == FeedAll(m, s1, x)
    ensures Parsed(m, Arrived(c, x)) == Parsed(m, Conv(s1, 0, x))
  {
    FedTaken(m, c.s, rest, |rest|);
    FedTaken(m, s1, x, |x|);
    var s2 := FeedAll(m, s1, x);
    assert (rest + x)[s2.taken - c.s.taken..] == x[s2.taken - s1.taken..];
  }

  /** A stream that has stopped takes nothing. */
  lemma StoppedStays<S(!new)>(m: Machine<S>, s: Stream<S>, x: seq<byte>)
    requires |s.flows| == 6 && !s.status.Running?
    ensures FeedAll(m, s, x) == s && StopsWhenDue(m, s, x)
  {
    forall i | 0 <= i <= |x| ensures Fed(m, s, x, i) == s {
      FedLater(m, s, x, 0, i);
    }
  }

  lemma StoppedEarly<S(!new)>(m: Machine<S>, c: Conv<S>, x: seq<byte>)
    requires |c.s.flows| == 6 && c.skip == 0 && !c.s.status.Running?
    ensures Parsed(m, Arrived(c, x)) == Arrived(c, x) && Stops(m, Arrived(c, x))
  {
    var all := c.unread + x;
    assert all[0..] == all;
    StoppedStays(m, c.s, all);
  }

  /** Settling depends on a conversation only through what parsing makes of it. */
  lemma SettledAlike<S(!new)>(m: Machine<S>, c: Conv<S>, c': Conv<S>, skips: seq<nat>)
    requires |c.s.flows| == 6 && |c'.s.flows| == 6 && Parsed(m, c) == Parsed(m, c')
    ensures Settled(m, c, skips) == Settled(m, c', skips)
    ensures StopsAll(m, c, skips) && Stops(m, c') ==> StopsAll(m, c', skips)
  {
  }

  /** Over every run of arrivals, calls of `do_parse` and handled bodies: once `do_parse` is called again, the parser is
      where it would be if everything had arrived at once. */
  lemma {:induction false} TimingDoesNotMatter<S(!new)>(m: Machine<S>, c: Conv<S>, events: seq<Event>)
    requires |c.s.flows| == 6 && Runs(m, c, events) && StopsAll(m, Arrived(c, Input(events)), Skips(events))
    ensures Parsed(m, Final(m, c, events)) == Settled(m, Arrived(c, Input(events)), Skips(events))
    decreases |events|
  {
    if events == [] {
      assert c.unread + [] == c.unread;
    } else {
      var e, rest := events[0], events[1..];
      var x, skips := Input(rest), Skips(rest);
      match e {
        case Arrive(chunk) =>
          Assoc(c.unread, chunk, x);
          assert Skips(events) == skips;
        case Parse =>
          assert Skips(events) == skips && Input(events) == x;
          ParsedEarly(m, c, x);
          SettledAlike(m, Arrived(c, x), Arrived(Parsed(m, c), x), skips);
        case Handled(skip) =>
          assert Input(events) == x && Skips(events) == [skip] + skips;
          assert Parsed(m, Arrived(c, x)) == Arrived(c, x);
          assert Resumed(Arrived(c, x), skip) == Arrived(Resumed(c, skip), x);
      }
      TimingDoesNotMatter(m, Apply(m, c, e), rest);
    }
  }

  /** After a handler has left `n` bytes of a body unread, exactly the next `n` bytes are kept from the parser: it goes on
      behind them once they have arrived, and stays where it is until then. */
  lemma SkipsExactly<S(!new)>(m: Machine<S>, c: Conv<S>, n: nat, x: seq<byte>)
    requires |c.s.flows| == 6
    ensures var p, all, s := Parsed(m, Arrived(Apply(m, c, Handled(n)), x)), c.unread + x, c.s.(status := Running, due := false);
      if |all| < n then p == Conv(s, n - |all|, [])
      else p.s == FeedAll(m, s, all[n..]) && p.skip == 0 && |p.unread| <= |all| - n && p.unread == all[|all| - |p.unread|..]
  {
    var all, s := c.unread + x, c.s.(status := Running, due := false);
    if |all| > n {
      FedTaken(m, s, all[n..], |all| - n);
    }
  }

  /** The same over every run up to the next handled body: when do_parse is called and how the bytes arrive is of no
      concern. */
  lemma SkippedNeverParsed<S(!new)>(m: Machine<S>, c: Conv<S>, n: nat, events: seq<Event>)
    requires |c.s.flows| == 6 && Runs(m, Apply(m, c, Handled(n)), events) && Skips(events) == []
    requires Stops(m, Arrived(Apply(m, c, Handled(n)), Input(events))) && |c.unread + Input(events)| >= n
    ensures Parsed(m, Final(m, Apply(m, c, Handled(n)), events)).s
      == FeedAll(m, c.s.(status := Running, due := false), (c.unread + Input(events))[n..])
  {
    TimingDoesNotMatter(m, Apply(m, c, Handled(n)), events);
    SkipsExactly(m, c, n, Input(events));
  }

  // ------------------------------------------------------------ exactly when timing does not matter

  /** From a point where everything has been parsed, the bytes `x` are parsed alike however they arrive. */
  ghost predicate TimeFree<S(!new)>(m: Machine<S>, c: Conv<S>, x: seq<byte>)
    requires |c.s.flows| == 6
  {
    forall events :: Runs(m, c, events) && Input(events) == x && Skips(events) == [] ==>
      Parsed(m, Final(m, c, events)) == Parsed(m, Arrived(c, x))
  }

  /** The bytes in two pieces, with a call of `do_parse` in between. */
  function Halves(a: seq<byte>, b: seq<byte>): seq<Event> {
    [Arrive(a), Parse, Arrive(b)]
  }

  /** One event more in front. */
  lemma Cons<S(!new)>(m: Machine<S>, c: Conv<S>, e: Event, rest: seq<Event>)
    requires |c.s.flows| == 6 && !e.Handled?
    ensures var events := [e] + rest;
      && Runs(m, c, events) == Runs(m, Apply(m, c, e), rest) && Final(m, c, events) == Final(m, Apply(m, c, e), rest)
      && Input(events) == (if e.Arrive? then e.chunk else []) + Input(rest) && Skips(events) == Skips(rest)
  {
    var events := [e] + rest;
    assert events[0] == e && events[1..] == rest;
  }

  lemma HalvesRun<S(!new)>(m: Machine<S>, c: Conv<S>, a: seq<byte>, b: seq<byte>)
    requires |c.s.flows| == 6
    ensures var events := Halves(a, b);
      && Runs(m, c, events) && Final(m, c, events) == Arrived(Parsed(m, Arrived(c, a)), b)
      && Input(events) == a + b && Skips(events) == []
  {
    Cons(m, Parsed(m, Arrived(c, a)), Arrive(b), []);
    Cons(m, Arrived(c, a), Parse, [Arrive(b)]);
    Cons(m, c, Arrive(a), [Parse, Arrive(b)]);
    assert [Arrive(b)] + [] == [Arrive(b)] && [Parse] + [Arrive(b)] == [Parse, Arrive(b)];
    assert [Arrive(a)] + [Parse, Arrive(b)] == Halves(a, b);
    assert b + [] == b && [] + b == b;
  }

  /** A stream that runs on after `i` bytes is not where it was. */
  lemma RunsOn<S(!new)>(m: Machine<S>, s: Stream<S>, x: seq<byte>, i: nat)
    requires |s.flows| == 6 && i < |x| && Fed(m, s, x, i).status.Running?
    ensures FeedAll(m, s, x) != Fed(m, s, x, i)
  {
    var s1, s2 := Fed(m, s, x, i), Fed(m, s, x, i + 1);
    assert s2.status.Failed? || s2.taken == s1.taken + 1;
    FedLater(m, s, x, i + 1, |x|);
    TakenGrows(m, s, x, i + 1, |x|);
  }

  /** Stopping for a due body that the automaton itself does not stop for is seen. */
  lemma EarlyStopIsSeen<S(!new)>(m: Machine<S>, c: Conv<S>, a: seq<byte>, b: seq<byte>)
    requires |c.s.flows| == 6 && !c.s.due && c.skip == 0 && c.unread == [] && b != []
    requires Fed(m, c.s, a + b, |a|).due && Fed(m, c.s, a + b, |a|).status.Running?
    ensures Parsed(m, Final(m, c, Halves(a, b))) != Parsed(m, Arrived(c, a + b))
  {
    HalvesRun(m, c, a, b);
    FedPrefix(m, c.s, a, b, |a|);
    assert a != [];
    assert [] + a == a && a[0..] == a && [] + (a + b) == a + b && (a + b)[0..] == a + b;
    assert Parsed(m, Arrived(c, a)).s == FeedAll(m, c.s, a);
    RunsOn(m, c.s, a + b, |a|);
  }

  /** The timing does not matter exactly when the parser stops at every due body before the end of what arrives. */
  lemma TimingExactly<S(!new)>(m: Machine<S>, c: Conv<S>, x: seq<byte>)
    requires |c.s.flows| == 6 && !c.s.due && c.skip == 0 && c.unread == []
    ensures TimeFree(m, c, x) <==> StopsWhenDue(m, c.s, x)
  {
    assert [] + x == x && x[0..] == x;
    if StopsWhenDue(m, c.s, x) {
      forall events | Runs(m, c, events) && Input(events) == x && Skips(events) == []
        ensures Parsed(m, Final(m, c, events)) == Parsed(m, Arrived(c, x))
      {
        TimingDoesNotMatter(m, c, events);
      }
    } else {
      var i :| 0 <= i < |x| && Fed(m, c.s, x, i).due && Fed(m, c.s, x, i).status.Running?;
      assert x[..i] + x[i..] == x;
      EarlyStopIsSeen(m, c, x[..i], x[i..]);
      HalvesRun(m, c, x[..i], x[i..]);
    }
  }
}
