/** The two ends of a FastCGI connection: `FcgiEnvironment` writes a request into a buffer, and
    `FcgiResponseParser` takes records out of one. */
module FcgiClasses {
  import opened Basics
  import opened Pages
  import opened BufferClass
  import opened Fcgi

  ghost function Bytes(b: Buffer): seq<byte>
    requires b.Ok()
    reads b, b.cow
  {
    Contents(b.P, b.View())
  }

  /** A buffer keeps its store, or moves to a new one. */
  twostate predicate StoreKept(b: Buffer)
    reads b
  {
    b.cow == old(b.cow) || fresh(b.cow)
  }

  method Put(b: Buffer, data: seq<byte>)
    requires b.Ok()
    modifies b, b.cow
    ensures b.Ok() && Bytes(b) == old(Bytes(b)) + data && StoreKept(b)
  {
    AppendRefines(b.P, b.View(), data);
    var _ := b.Append(data);
  }

  /** `Record::append_to_buffer`. */
  method AppendToBuffer(rec: Record, b: Buffer)
    requires b.Ok()
    modifies b, b.cow
    ensures b.Ok() && Bytes(b) == old(Bytes(b)) + Header(rec) && StoreKept(b)
  {
    Put(b, Header(rec));
  }

  /** `Record::append_to_buffer_content_data`. */
  method AppendContentData(rec: Record, b: Buffer, data: seq<byte>)
    requires b.Ok() && rec.contentLength <= |data|
    modifies b, b.cow
    ensures b.Ok() && Bytes(b) == old(Bytes(b)) + Payload(rec, data) && StoreKept(b)
  {
    if rec.contentLength == 0 {
      return;
    }
    Put(b, data[..rec.contentLength]);
    if rec.padding != 0 {
      Put(b, Zeros(rec.padding));
    }
  }

  class FcgiEnvironment {
    const buffer: Buffer
    var state: nat
    var kv: seq<byte>

    constructor (buffer: Buffer)
      ensures this.buffer == buffer && state == 0 && kv == []
    {
      this.buffer := buffer;
      state, kv := 0, [];
    }

    method BeginRequest() returns (ok: bool)
      requires buffer.Ok()
      modifies this`state, buffer, buffer.cow
      ensures buffer.Ok() && StoreKept(buffer) && ok == (old(state) == 0)
      ensures state == if ok then 1 else old(state)
      ensures Bytes(buffer) == if ok then old(Bytes(buffer)) + Frame(BeginMessage()) else old(Bytes(buffer))
    {
      if state != 0 {
        return false;
      }
      var rec := SetContentLength(NewRecord(BEGIN_REQUEST_TYPE), 8);
      AppendToBuffer(rec, buffer);
      AppendContentData(rec, buffer, BeginMessage().content);
      state := state + 1;
      return true;
    }

    method SetEnvironment(p: Pair) returns (ok: bool)
      modifies this`kv
      ensures ok == (state == 1 && |old(kv)| < ENVIRONMENT_SIZE_LIMIT)
      ensures kv == if ok then old(kv) + EncodePair(p) else old(kv)
    {
      if state != 1 || |kv| >= ENVIRONMENT_SIZE_LIMIT {
        return false;
      }
      ghost var was := kv;
      kv := kv + EncodeLength(|p.name|);
      kv := kv + EncodeLength(|p.value|);
      kv := kv + p.name;
      kv := kv + p.value;
      assert kv == was + EncodePair(p);
      return true;
    }

    method CommitEnvironment() returns (ok: bool)
      requires buffer.Ok()
      modifies this`kv, buffer, buffer.cow
      ensures buffer.Ok() && StoreKept(buffer) && ok == (state == 1 && old(kv) != [])
      ensures kv == if ok then [] else old(kv)
      ensures Bytes(buffer) == if ok then old(Bytes(buffer)) + Frame(ParamsMessage(old(kv))) else old(Bytes(buffer))
    {
      if state != 1 || kv == [] {
        return false;
      }
      var rec := SetContentLength(NewRecord(PARAMS_TYPE), |kv|);
      AppendToBuffer(rec, buffer);
      AppendContentData(rec, buffer, kv);
      kv := [];
      return true;
    }

    /** `prepare_request`: an empty parameter record ends the environment, and the header of the body follows. */
    method PrepareRequest(size: nat) returns (total: int)
      requires buffer.Ok()
      modifies buffer, buffer.cow
      ensures buffer.Ok() && StoreKept(buffer)
      ensures state != 1 ==> total == -1 && Bytes(buffer) == old(Bytes(buffer))
      ensures state == 1 ==> total == TotalLength(StdinRecord(size))
      ensures state == 1 ==> Bytes(buffer) == old(Bytes(buffer)) + Frame(ParamsMessage([])) + Header(StdinRecord(size))
    {
      if state != 1 {
        return -1;
      }
      AppendToBuffer(SetContentLength(NewRecord(PARAMS_TYPE), 0), buffer);
      var rec := SetContentLength(NewRecord(STDIN_TYPE), size);
      AppendToBuffer(rec, buffer);
      return TotalLength(rec);
    }
  }

  function BeginMessage(): Message {
    Message(1, BEGIN_REQUEST_TYPE, 1, 0, [0, 1, 1, 0, 0, 0, 0, 0])
  }

  function ParamsMessage(kv: seq<byte>): Message {
    Message(1, PARAMS_TYPE, 1, 0, kv)
  }

  function StdinRecord(size: nat): Record {
    SetContentLength(NewRecord(STDIN_TYPE), size)
  }

  function Request(kv: seq<byte>): seq<Message> {
    [BeginMessage(), ParamsMessage(kv)]
  }

  /** The bytes of a begin request: a responder that keeps the connection; of the empty parameter record; and of the header
      of a body. */
  lemma RequestBytes(size: nat)
    ensures Frame(BeginMessage()) == [1, 1, 0, 1, 0, 8, 0, 0, 0, 1, 1, 0, 0, 0, 0, 0]
    ensures Frame(ParamsMessage([])) == [1, 4, 0, 1, 0, 0, 0, 0]
    ensures size <= 65535 ==> Header(StdinRecord(size)) == [1, 5, 0, 1, size / 256, size % 256, (4 - size % 4) % 4, 0]
  {
    assert Zeros(0) == [];
  }

  /** The bytes that `begin_request` and `commit_environment` leave. */
  lemma RequestWire(kv: seq<byte>)
    ensures Wire(Request(kv)) == Frame(BeginMessage()) + Frame(ParamsMessage(kv))
  {
    var xs := Request(kv);
    assert xs[1..] == [ParamsMessage(kv)] && xs[1..][1..] == [];
    assert Wire(xs[1..]) == Frame(ParamsMessage(kv)) + Wire([]);
  }

  lemma RequestCarried(kv: seq<byte>)
    ensures CarriedAll(Request(kv)) == [BeginMessage(), Carried(ParamsMessage(kv))]
    ensures Carried(ParamsMessage(kv)).content == kv <==> |kv| <= 65535
  {
    assert Carried(BeginMessage()) == BeginMessage();
    assert |kv| <= 65535 ==> kv[..|kv| % 65536] == kv;
  }

  /** The two records of a committed environment are both read, and the second carries all pairs exactly when
      they take at most 65535 bytes. */
  lemma CommitExactly(kv: seq<byte>)
    ensures ReadAll(Wire(Request(kv))) == ([BeginMessage(), Carried(ParamsMessage(kv))], [])
    ensures Carried(ParamsMessage(kv)).content == kv <==> |kv| <= 65535
  {
    WireIsRead(Request(kv));
    RequestCarried(kv);
  }

  class FcgiResponseParser {
    const buffer: Buffer

    constructor (buffer: Buffer)
      ensures this.buffer == buffer
    {
      this.buffer := buffer;
    }

    /** `extract_record`: the header is looked at, and removed once enough bytes are there. */
    method ExtractRecord() returns (rec: Option<Record>)
      requires buffer.Ok()
      modifies buffer, buffer.cow
      ensures buffer.Ok() && StoreKept(buffer)
      ensures (Bytes(buffer), rec) == Extract(old(Bytes(buffer)))
    {
      var ok, data := buffer.CopyFront(RECORD_SIZE);
      if !ok {
        return None;
      }
      var r := ParseHeader(data);
      if buffer.size < TotalLength(r) {
        return None;
      }
      PopRefines(buffer.P, buffer.View(), RECORD_SIZE);
      var _ := buffer.Pop(RECORD_SIZE);
      return Some(r);
    }

    method BypassContent(size: nat)
      requires buffer.Ok()
      modifies buffer, buffer.cow
      ensures buffer.Ok() && StoreKept(buffer)
      ensures Bytes(buffer) == if |old(Bytes(buffer))| < size then old(Bytes(buffer)) else old(Bytes(buffer))[size..]
    {
      PopRefines(buffer.P, buffer.View(), size);
      var _ := buffer.Pop(size);
    }

    /** The loop that takes records as long as there are any; its outcome depends on the bytes of the buffer, not on
        how they lie in its pages. */
    method ReadRecords() returns (xs: seq<Message>)
      requires buffer.Ok()
      modifies buffer, buffer.cow
      ensures buffer.Ok() && (xs, Bytes(buffer)) == ReadAll(old(Bytes(buffer)))
    {
      xs := [];
      ghost var all := ReadAll(Bytes(buffer));
      while true
        invariant buffer.Ok() && StoreKept(buffer)
        invariant all.0 == xs + ReadAll(Bytes(buffer)).0 && all.1 == ReadAll(Bytes(buffer)).1
        decreases |Bytes(buffer)|
      {
        ghost var c := Bytes(buffer);
        var rec := ExtractRecord();
        if rec.None? {
          assert ReadAll(c) == ([], c) && xs + [] == xs;
          return;
        }
        var r := rec.value;
        var n := if buffer.size < r.contentLength then buffer.size else r.contentLength;
        var _, content := buffer.CopyFront(n);
        BypassContent(TotalLength(r));
        var x := Message(r.version, r.typ, r.requestId, r.reserved, content);
        ReadUnfold(c, Extract(c).0, r, Bytes(buffer), content);
        Assoc(xs, [x], ReadAll(Bytes(buffer)).0);
        xs := xs + [x];
      }
    }

    /** What `SendAll` wrote, on any pages, is read back with every content cut to 16 bits of its length, and unchanged
        exactly when no content is longer than 65535 bytes; nothing is left. */
    method ReadBack(ghost xs: seq<Message>) returns (ys: seq<Message>)
      requires buffer.Ok() && Bytes(buffer) == Wire(xs)
      modifies buffer, buffer.cow
      ensures buffer.Ok() && Bytes(buffer) == [] && ys == CarriedAll(xs)
      ensures ys == xs <==> forall i :: 0 <= i < |xs| ==> Fits(xs[i])
    {
      WireIsRead(xs);
      CarriedExactly(xs);
      ys := ReadRecords();
    }
  }

  /** One record. */
  method Send(b: Buffer, x: Message)
    requires b.Ok()
    modifies b, b.cow
    ensures b.Ok() && StoreKept(b) && Bytes(b) == old(Bytes(b)) + Frame(x)
  {
    Assoc(Bytes(b), Header(RecordOf(x)), Payload(RecordOf(x), x.content));
    AppendToBuffer(RecordOf(x), b);
    AppendContentData(RecordOf(x), b, x.content);
  }

  /** Appends any list of records. */
  method SendAll(b: Buffer, xs: seq<Message>)
    requires b.Ok()
    modifies b, b.cow
    ensures b.Ok() && StoreKept(b) && Bytes(b) == old(Bytes(b)) + Wire(xs)
  {
    ghost var all := Bytes(b) + Wire(xs);
    assert xs[0..] == xs;
    for i := 0 to |xs|
      invariant b.Ok() && StoreKept(b) && Bytes(b) + Wire(xs[i..]) == all
    {
      WireFrom(xs, i);
      Assoc(Bytes(b), Frame(xs[i]), Wire(xs[i + 1..]));
      Send(b, xs[i]);
    }
    assert xs[|xs|..] == [];
  }

  // ------------------------------------------------------------ a request

  /** What `set_environment` has collected after a list of pairs: it refuses once the limit is reached. */
  function Collected(ps: seq<Pair>): seq<byte> {
    if ps == [] then []
    else
      var kv := Collected(ps[..|ps| - 1]);
      if |kv| < ENVIRONMENT_SIZE_LIMIT then kv + EncodePair(ps[|ps| - 1]) else kv
  }

  lemma {:induction false} EncodeSnoc(ps: seq<Pair>, p: Pair)
    ensures EncodePairs(ps + [p]) == EncodePairs(ps) + EncodePair(p)
  {
    if ps == [] {
      assert EncodePairs([p]) == EncodePair(p) + EncodePairs([p][1..]);
      assert ps + [p] == [p];
    } else {
      EncodeSnoc(ps[1..], p);
      assert (ps + [p])[1..] == ps[1..] + [p];
      Assoc(EncodePair(ps[0]), EncodePairs(ps[1..]), EncodePair(p));
    }
  }

  /** What was collected are the first pairs; if any were refused, the limit had been reached. */
  lemma {:induction false} CollectedIsPrefix(ps: seq<Pair>) returns (k: nat)
    ensures k <= |ps| && Collected(ps) == EncodePairs(ps[..k])
    ensures k < |ps| ==> |Collected(ps)| >= ENVIRONMENT_SIZE_LIMIT
  {
    if ps == [] {
      k := 0;
    } else {
      var front, p := ps[..|ps| - 1], ps[|ps| - 1];
      k := CollectedIsPrefix(front);
      assert front[..k] == ps[..k];
      if |Collected(front)| < ENVIRONMENT_SIZE_LIMIT {
        EncodeSnoc(front, p);
        assert front[..k] == front && front + [p] == ps;
        k := |ps|;
        assert ps[..k] == ps;
      }
    }
  }

  /** No pair is refused exactly when those before the last take less than 65535 bytes. */
  lemma CollectedAllExactly(ps: seq<Pair>)
    ensures Collected(ps) == EncodePairs(ps) <==> ps == [] || |EncodePairs(ps[..|ps| - 1])| < ENVIRONMENT_SIZE_LIMIT
  {
    if ps != [] {
      var front, p := ps[..|ps| - 1], ps[|ps| - 1];
      assert ps == front + [p];
      EncodeSnoc(front, p);
      assert |EncodePair(p)| > 0;
      var k := CollectedIsPrefix(front);
      EncodeSplit(front, k);
      if k == |front| {
        assert front[..k] == front;
      }
      NotShorter(Collected(front), EncodePairs(front), EncodePair(p));
    }
  }

  lemma NotShorter(a: seq<byte>, b: seq<byte>, x: seq<byte>)
    ensures |a| < |b| ==> a + x != b + x && a != b + x
  {
    assert |a + x| == |a| + |x| && |b + x| == |b| + |x|;
  }

  lemma {:induction false} EncodeConcat(a: seq<Pair>, b: seq<Pair>)
    ensures EncodePairs(a + b) == EncodePairs(a) + EncodePairs(b)
  {
    if a == [] {
      assert a + b == b;
    } else {
      EncodeConcat(a[1..], b);
      assert (a + b)[0] == a[0] && (a + b)[1..] == a[1..] + b;
      Assoc(EncodePair(a[0]), EncodePairs(a[1..]), EncodePairs(b));
    }
  }

  lemma CollectedStarts(ps: seq<Pair>)
    ensures Collected(ps) <= EncodePairs(ps)
  {
    var k := CollectedIsPrefix(ps);
    EncodeSplit(ps, k);
  }

  lemma EncodeSplit(ps: seq<Pair>, k: nat)
    requires k <= |ps|
    ensures EncodePairs(ps[..k]) <= EncodePairs(ps)
  {
    var a, b := ps[..k], ps[k..];
    assert a + b == ps;
    EncodeConcat(a, b);
  }

  /** The record that carries the environment carries a prefix of it. */
  lemma CarriedStarts(kv: seq<byte>, all: seq<byte>)
    requires kv <= all
    ensures Carried(ParamsMessage(kv)).content <= all && |Carried(ParamsMessage(kv)).content| <= 65535
  {
    var n := |kv| % 65536;
    assert kv[..n] <= kv;
  }

  /** A committed environment arrives as the pairs that were set exactly when they take at most 65535 bytes and every
      name and value has at most 127. */
  lemma EnvironmentArrivesExactly(ps: seq<Pair>)
    ensures DecodePairs(Carried(ParamsMessage(Collected(ps))).content) == Some(ps)
      <==> |EncodePairs(ps)| <= 65535 && forall i :: 0 <= i < |ps| ==> Short(ps[i])
  {
    var content := Carried(ParamsMessage(Collected(ps))).content;
    if |EncodePairs(ps)| <= 65535 {
      FitsAreCollected(ps);
      RequestCarried(Collected(ps));
      PairsRoundTripExactly(ps);
    } else {
      CollectedStarts(ps);
      CarriedStarts(Collected(ps), EncodePairs(ps));
      CutPairsAreMisread(ps, content);
    }
  }

  lemma FitsAreCollected(ps: seq<Pair>)
    requires |EncodePairs(ps)| <= 65535
    ensures Collected(ps) == EncodePairs(ps)
  {
    if ps != [] {
      var front, p := ps[..|ps| - 1], ps[|ps| - 1];
      assert ps == front + [p];
      EncodeSnoc(front, p);
      assert |EncodePair(p)| > 0;
    }
    CollectedAllExactly(ps);
  }

  /** The first steps of a FastCGI request: `begin_request`, `set_environment` for every pair, `commit_environment`.
      They append a begin record and, unless there are no pairs, one record with what was collected. */
  method StartRequest(env: FcgiEnvironment, ps: seq<Pair>)
    requires env.buffer.Ok() && env.state == 0 && env.kv == []
    modifies env, env.buffer, env.buffer.cow
    ensures env.buffer.Ok() && env.state == 1 && env.kv == []
    ensures Bytes(env.buffer) == old(Bytes(env.buffer)) + Wire(if ps == [] then [BeginMessage()] else Request(Collected(ps)))
  {
    var b := env.buffer;
    var _ := env.BeginRequest();
    for i := 0 to |ps|
      invariant b.Ok() && StoreKept(b) && env.state == 1 && env.kv == Collected(ps[..i])
      invariant Bytes(b) == old(Bytes(b)) + Frame(BeginMessage()) && (i > 0 ==> env.kv != [])
    {
      assert ps[..i + 1][..i] == ps[..i];
      assert |EncodePair(ps[i])| > 0;
      var _ := env.SetEnvironment(ps[i]);
    }
    assert ps[..|ps|] == ps;
    var _ := env.CommitEnvironment();
    if ps == [] {
      assert Wire([BeginMessage()]) == Frame(BeginMessage()) + Wire([]);
    } else {
      RequestWire(Collected(ps));
      Assoc(old(Bytes(b)), Frame(BeginMessage()), Frame(ParamsMessage(Collected(ps))));
    }
  }
}
