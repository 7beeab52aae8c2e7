/** `OutputStream`: a queue of writeables that is drained into a socket by partial writes. */
module Stream {
  import opened Basics
  import opened Pages

  /** A buffer, or the `length` bytes of a file from `offset` on. */
  datatype Writeable =
    | Mem(b: Paged)
    | File(file: seq<byte>, offset: nat, length: nat)

  ghost predicate Ok(P: PageSize, w: Writeable) {
    match w
    case Mem(b) => Valid(P, b)
    case File(file, offset, _) => offset <= |file|
  }

  /** The bytes a writeable still has to send. A file may be shorter than the length asked for. */
  ghost function Bytes(P: PageSize, w: Writeable): seq<byte>
    requires Ok(P, w)
  {
    match w
    case Mem(b) => Contents(P, b)
    case File(file, offset, length) => file[offset..Min(offset + length, |file|)]
  }

  ghost predicate AllOk(P: PageSize, ws: seq<Writeable>) {
    forall i :: 0 <= i < |ws| ==> Ok(P, ws[i])
  }

  ghost function Parts(P: PageSize, ws: seq<Writeable>): (r: seq<seq<byte>>)
    requires AllOk(P, ws)
    ensures |r| == |ws| && forall i :: 0 <= i < |ws| ==> r[i] == Bytes(P, ws[i])
  {
    seq(|ws|, i requires 0 <= i < |ws| && Ok(P, ws[i]) => Bytes(P, ws[i]))
  }

  /** Everything a queue of writeables still has to send, in order. */
  ghost function Pending(P: PageSize, ws: seq<Writeable>): seq<byte>
    requires AllOk(P, ws)
  {
    Flat(Parts(P, ws))
  }

  predicate Eof(w: Writeable) {
    match w
    case Mem(b) => b.size == 0
    case File(_, _, length) => length == 0
  }

  function MemoryUsage(w: Writeable): nat {
    if w.Mem? then w.b.size else 0
  }

  function TotalMemory(ws: seq<Writeable>): nat {
    if ws == [] then 0 else MemoryUsage(ws[0]) + TotalMemory(ws[1..])
  }

  /** What the system call behind `write_to_fd` is offered: `writev` of at most two pages, `sendfile`
      of at most one page. */
  function Offered(P: PageSize, w: Writeable): seq<byte>
    requires Ok(P, w)
  {
    match w
    case Mem(b) => Offer(P, b)
    case File(file, offset, length) => file[offset..Min(offset + Min(length, P), |file|)]
  }

  /** `write_to_fd` when the system call returned `accept`. */
  function Written(P: PageSize, w: Writeable, accept: int): Writeable
    requires Ok(P, w) && accept <= |Offered(P, w)|
  {
    if accept <= 0 then w else
    match w
    case Mem(b) => if b.size == 0 then w else Mem(Pop(P, b, accept))
    case File(file, offset, length) => File(file, offset + accept, length - accept)
  }

  function Sent(P: PageSize, w: Writeable, accept: int): seq<byte>
    requires Ok(P, w) && accept <= |Offered(P, w)|
  {
    if accept <= 0 then [] else Offered(P, w)[..accept]
  }

  lemma MemWriteSplits(P: PageSize, b: Paged, n: nat)
    requires Valid(P, b) && n <= |Offer(P, b)|
    ensures Valid(P, Pop(P, b, n)) && Offer(P, b)[..n] + Contents(P, Pop(P, b, n)) == Contents(P, b)
  {
    OfferIsPrefix(P, b);
    PopRefines(P, b, n);
    var all := Contents(P, b);
    assert Offer(P, b)[..n] == all[..n];
    assert all[..n] + all[n..] == all;
  }

  lemma MemSplits(P: PageSize, b: Paged, accept: nat)
    requires Valid(P, b) && 0 < accept <= |Offer(P, b)|
    ensures Ok(P, Written(P, Mem(b), accept))
    ensures Sent(P, Mem(b), accept) + Bytes(P, Written(P, Mem(b), accept)) == Contents(P, b)
  {
    OfferIsPrefix(P, b);
    MemWriteSplits(P, b, accept);
    assert Written(P, Mem(b), accept) == Mem(Pop(P, b, accept));
  }

  /** A write sends a prefix of the pending bytes and keeps the rest. */
  lemma WriteSplits(P: PageSize, w: Writeable, accept: int)
    requires Ok(P, w) && accept <= |Offered(P, w)|
    ensures Ok(P, Written(P, w, accept))
    ensures Sent(P, w, accept) + Bytes(P, Written(P, w, accept)) == Bytes(P, w)
  {
    if accept <= 0 {
      NothingSplits(Bytes(P, w));
    } else {
      match w {
        case Mem(b) => MemSplits(P, b, accept);
        case File(file, offset, length) => FileSplits(P, file, offset, length, accept);
      }
    }
  }

  lemma NothingSplits(x: seq<byte>)
    ensures [] + x == x
  {
  }

  lemma FileWritten(P: PageSize, file: seq<byte>, offset: nat, length: nat, accept: nat)
    requires offset <= |file| && 0 < accept <= |Offered(P, File(file, offset, length))|
    ensures var w := Written(P, File(file, offset, length), accept);
      Ok(P, w) && Bytes(P, w) == file[offset + accept..Min(offset + length, |file|)]
  {
  }

  lemma FileSent(P: PageSize, file: seq<byte>, offset: nat, length: nat, accept: nat)
    requires offset <= |file| && 0 < accept <= |Offered(P, File(file, offset, length))|
    ensures offset + accept <= Min(offset + length, |file|)
    ensures Sent(P, File(file, offset, length), accept) == file[offset..offset + accept]
  {
  }

  lemma Adjoin(file: seq<byte>, a: nat, b: nat, c: nat)
    requires a <= b <= c <= |file|
    ensures file[a..b] + file[b..c] == file[a..c]
  {
  }

  lemma FileSplits(P: PageSize, file: seq<byte>, offset: nat, length: nat, accept: nat)
    requires offset <= |file| && 0 < accept <= |Offered(P, File(file, offset, length))|
    ensures var w := File(file, offset, length);
      Ok(P, Written(P, w, accept)) && Sent(P, w, accept) + Bytes(P, Written(P, w, accept)) == Bytes(P, w)
  {
    FileSent(P, file, offset, length, accept);
    FileWritten(P, file, offset, length, accept);
    Adjoin(file, offset, offset + accept, Min(offset + length, |file|));
  }

  /** As long as bytes are pending, the system call is offered some of them. */
  lemma OffersSomething(P: PageSize, w: Writeable)
    requires Ok(P, w) && Bytes(P, w) != []
    ensures 0 < |Offered(P, w)| <= |Bytes(P, w)| && Offered(P, w) == Bytes(P, w)[..|Offered(P, w)|]
  {
    if w.Mem? {
      OfferIsPrefix(P, w.b);
    }
  }

  lemma {:induction false} MemoryConcat(a: seq<Writeable>, b: seq<Writeable>)
    ensures TotalMemory(a + b) == TotalMemory(a) + TotalMemory(b)
  {
    if a == [] {
      assert a + b == b;
    } else {
      MemoryConcat(a[1..], b);
      assert (a + b)[1..] == a[1..] + b;
    }
  }

  lemma MemoryOne(w: Writeable)
    ensures TotalMemory([w]) == MemoryUsage(w)
  {
  }

  lemma PendingCons(P: PageSize, w: Writeable, ws: seq<Writeable>)
    requires AllOk(P, ws) && Ok(P, w)
    ensures AllOk(P, [w] + ws) && Pending(P, [w] + ws) == Bytes(P, w) + Pending(P, ws)
  {
    assert Parts(P, [w] + ws)[1..] == Parts(P, ws);
  }

  lemma PendingOne(P: PageSize, w: Writeable)
    requires Ok(P, w)
    ensures Pending(P, [w]) == Bytes(P, w)
  {
    FlatOne(Parts(P, [w]));
  }

  lemma PendingSnoc(P: PageSize, ws: seq<Writeable>, w: Writeable)
    requires AllOk(P, ws) && Ok(P, w)
    ensures AllOk(P, ws + [w]) && Pending(P, ws + [w]) == Pending(P, ws) + Bytes(P, w)
    ensures TotalMemory(ws + [w]) == TotalMemory(ws) + MemoryUsage(w)
  {
    FlatSnoc(Parts(P, ws), Bytes(P, w));
    assert Parts(P, ws + [w]) == Parts(P, ws) + [Bytes(P, w)];
    MemoryConcat(ws, [w]);
    MemoryOne(w);
  }

  /** The last writeable grows by `data`. */
  lemma PendingExtended(P: PageSize, front: seq<Writeable>, last: Writeable, w: Writeable, data: seq<byte>)
    requires AllOk(P, front) && Ok(P, last) && Ok(P, w) && Bytes(P, w) == Bytes(P, last) + data
    ensures AllOk(P, front + [w]) && AllOk(P, front + [last]) && Pending(P, front + [w]) == Pending(P, front + [last]) + data
    ensures TotalMemory(front + [w]) == TotalMemory(front + [last]) - MemoryUsage(last) + MemoryUsage(w)
  {
    PendingSnoc(P, front, w);
    PendingSnoc(P, front, last);
    Assoc(Pending(P, front), Bytes(P, last), data);
  }

  /** The first writeable is replaced. */
  lemma PendingFirst(P: PageSize, ws: seq<Writeable>, w: Writeable)
    requires AllOk(P, ws) && ws != [] && Ok(P, w)
    ensures AllOk(P, [w] + ws[1..]) && Pending(P, [w] + ws[1..]) == Bytes(P, w) + Pending(P, ws[1..])
    ensures TotalMemory([w] + ws[1..]) == TotalMemory(ws) - MemoryUsage(ws[0]) + MemoryUsage(w)
  {
    PendingCons(P, w, ws[1..]);
    assert ([w] + ws[1..])[1..] == ws[1..];
  }

  lemma EofIsDrained(P: PageSize, w: Writeable)
    requires Ok(P, w) && Eof(w)
    ensures Bytes(P, w) == [] && MemoryUsage(w) == 0
  {
  }

  // ------------------------------------------------------------ one operation

  /** `append_data`: the data goes into the last buffer, or into a new one behind a file. */
  function WithData(P: PageSize, ws: seq<Writeable>, data: seq<byte>): seq<Writeable>
    requires AllOk(P, ws)
  {
    EmptyIsValid(P);
    var all := if ws == [] then [Mem(Empty(P))] else ws;
    var n := |all| - 1;
    if all[n].Mem? then all[..n] + [Mem(Append(P, all[n].b, data))] else all + [Mem(Append(P, Empty(P), data))]
  }

  lemma EmptyIsValid(P: PageSize)
    ensures Valid(P, Empty(P)) && Contents(P, Empty(P)) == []
  {
    FlatOne(Empty(P).pages);
  }

  lemma ExtendedByData(P: PageSize, ws: seq<Writeable>, data: seq<byte>)
    requires AllOk(P, ws) && ws != []
    ensures var ws' := WithData(P, ws, data);
      AllOk(P, ws') && Pending(P, ws') == Pending(P, ws) + data && TotalMemory(ws') == TotalMemory(ws) + |data|
  {
    EmptyIsValid(P);
    var last := ws[|ws| - 1];
    if last.Mem? {
      AppendRefines(P, last.b, data);
      var front := ws[..|ws| - 1];
      assert ws == front + [last];
      PendingExtended(P, front, last, Mem(Append(P, last.b, data)), data);
    } else {
      AppendRefines(P, Empty(P), data);
      PendingSnoc(P, ws, Mem(Append(P, Empty(P), data)));
    }
  }

  lemma WithDataAppends(P: PageSize, ws: seq<Writeable>, data: seq<byte>)
    requires AllOk(P, ws)
    ensures var ws' := WithData(P, ws, data);
      AllOk(P, ws') && Pending(P, ws') == Pending(P, ws) + data && TotalMemory(ws') == TotalMemory(ws) + |data|
  {
    if ws == [] {
      var one := [Mem(Empty(P))];
      EmptyIsValid(P);
      PendingOne(P, one[0]);
      MemoryOne(one[0]);
      ExtendedByData(P, one, data);
    } else {
      ExtendedByData(P, ws, data);
    }
  }

  /** What the system call returns when it would accept `k` bytes. */
  function Accepted(P: PageSize, w: Writeable, k: int): (r: int)
    requires Ok(P, w)
    ensures r <= |Offered(P, w)|
  {
    if k < |Offered(P, w)| then k else |Offered(P, w)|
  }

  /** `write_into_output` when the system call would accept `k` bytes: what is left, the result, and what was sent. */
  function WriteFirst(P: PageSize, ws: seq<Writeable>, k: int): (seq<Writeable>, int, seq<byte>)
    requires AllOk(P, ws)
  {
    if ws == [] then (ws, 0, [])
    else
      var accept := Accepted(P, ws[0], k);
      var w := Written(P, ws[0], accept);
      (if Eof(w) then ws[1..] else [w] + ws[1..],
       if ws[0].Mem? && ws[0].b.size == 0 then 0 else accept,
       Sent(P, ws[0], accept))
  }

  /** A write moves a prefix of the pending bytes to the wire, as many as it returns. */
  lemma WriteFirstMoves(P: PageSize, ws: seq<Writeable>, k: int)
    requires AllOk(P, ws)
    ensures var (ws', res, sent) := WriteFirst(P, ws, k);
      && AllOk(P, ws') && sent + Pending(P, ws') == Pending(P, ws)
      && |sent| == (if res > 0 then res else 0)
  {
    if ws != [] {
      var accept := Accepted(P, ws[0], k);
      var w := Written(P, ws[0], accept);
      WriteSplits(P, ws[0], accept);
      SentLength(P, ws[0], accept);
      PendingFirst(P, ws, w);
      PendingFirst(P, ws, ws[0]);
      assert [ws[0]] + ws[1..] == ws;
      Assoc(Sent(P, ws[0], accept), Bytes(P, w), Pending(P, ws[1..]));
      if Eof(w) {
        EofIsDrained(P, w);
        assert Bytes(P, w) + Pending(P, ws[1..]) == Pending(P, ws[1..]);
      }
    }
  }

  ghost predicate EmptyBuffer(w: Writeable) {
    w.Mem? && w.b.size == 0
  }

  /** A write calls the system exactly when there is a first writeable that is not an empty buffer. Then its result is what
      the call returned: an error as it is, else as many bytes as it took of those offered. */
  lemma WriteReports(P: PageSize, ws: seq<Writeable>, k: int)
    requires AllOk(P, ws)
    ensures var (ws', res, sent) := WriteFirst(P, ws, k);
      if ws == [] || EmptyBuffer(ws[0]) then res == 0 && sent == [] && ws' == (if ws == [] then [] else ws[1..])
      else
        && res == (if k <= |Offered(P, ws[0])| then k else |Offered(P, ws[0])|)
        && (res < 0 <==> k < 0)
        && sent == (if k < 0 then [] else Offered(P, ws[0])[..res])
        && (k <= 0 ==> ws' == if Eof(ws[0]) then ws[1..] else ws)
  {
    if ws != [] {
      SentLength(P, ws[0], Accepted(P, ws[0], k));
    }
  }

  /** A write fails exactly when it calls the system and the call fails, and then with the error of the call. */
  lemma ErrorExactly(P: PageSize, ws: seq<Writeable>, k: int)
    requires AllOk(P, ws)
    ensures WriteFirst(P, ws, k).1 < 0 <==> ws != [] && !EmptyBuffer(ws[0]) && k < 0
    ensures WriteFirst(P, ws, k).1 < 0 ==> WriteFirst(P, ws, k).1 == k
  {
    WriteReports(P, ws, k);
  }

  lemma SentLength(P: PageSize, w: Writeable, accept: int)
    requires Ok(P, w) && accept <= |Offered(P, w)|
    ensures |Sent(P, w, accept)| == (if accept > 0 then accept else 0)
    ensures w.Mem? && w.b.size == 0 ==> Offered(P, w) == []
  {
    if w.Mem? {
      OfferIsPrefix(P, w.b);
    }
  }

  /** The memory of the stream after a write. */
  lemma WriteFirstMemory(P: PageSize, ws: seq<Writeable>, k: int)
    requires AllOk(P, ws) && ws != []
    ensures var w := Written(P, ws[0], Accepted(P, ws[0], k));
      TotalMemory(WriteFirst(P, ws, k).0) == TotalMemory(ws) - MemoryUsage(ws[0]) + MemoryUsage(w)
  {
    var w := Written(P, ws[0], Accepted(P, ws[0], k));
    WriteSplits(P, ws[0], Accepted(P, ws[0], k));
    PendingFirst(P, ws, w);
    if Eof(w) {
      EofIsDrained(P, w);
    }
  }

  /** Data goes into the last writeable if that is a buffer, and else into a new buffer behind it. */
  lemma DataPlaces(P: PageSize, ws: seq<Writeable>, data: seq<byte>)
    requires AllOk(P, ws)
    ensures var ws', n := WithData(P, ws, data), |ws| - 1;
      && ws' != [] && ws'[|ws'| - 1].Mem? && AllOk(P, ws')
      && if ws != [] && ws[n].Mem?
         then |ws'| == |ws| && ws'[..n] == ws[..n] && Bytes(P, ws'[n]) == Bytes(P, ws[n]) + data
         else |ws'| == |ws| + 1 && ws'[..|ws|] == ws && Bytes(P, ws'[|ws|]) == data
  {
    EmptyIsValid(P);
    WithDataAppends(P, ws, data);
    AppendRefines(P, Empty(P), data);
    assert [] + data == data;
    if ws != [] && ws[|ws| - 1].Mem? {
      AppendRefines(P, ws[|ws| - 1].b, data);
    }
  }

  /** `writev` is offered two pages of a buffer less its free bytes, `sendfile` one page of a file. */
  lemma OfferedExactly(P: PageSize, w: Writeable)
    requires Ok(P, w)
    ensures var n := if w.File? then P else if |w.b.pages| <= 2 then w.b.size else 2 * P - w.b.left - w.b.right;
      Offered(P, w) == if n < |Bytes(P, w)| then Bytes(P, w)[..n] else Bytes(P, w)
  {
    if w.Mem? {
      OfferIsPrefix(P, w.b);
      OfferLength(P, w.b);
      SizeLaw(P, w.b);
      MulMono(3, |w.b.pages|, P);
    }
  }

  // ------------------------------------------------------------ any interleaving

  datatype Op = Data(data: seq<byte>) | SendFile(file: seq<byte>, offset: nat, length: int) | Whole(b: Paged) | Write(k: int)

  ghost predicate OpOk(P: PageSize, op: Op) {
    match op
    case SendFile(file, offset, length) => offset <= |file| && length >= -1
    case Whole(b) => Valid(P, b)
    case _ => true
  }

  /** `FileSender`: all of the file from `offset` on when `length` is -1. */
  function Sender(file: seq<byte>, offset: nat, length: int): Writeable
    requires offset <= |file| && length >= -1
  {
    File(file, offset, if length == -1 then |file| - offset else length)
  }

  /** What an operation appends to the stream. */
  ghost function Input(P: PageSize, op: Op): seq<byte>
    requires OpOk(P, op)
  {
    match op
    case Data(data) => data
    case SendFile(file, offset, length) => file[offset..if length == -1 then |file| else Min(offset + length, |file|)]
    case Whole(b) => Contents(P, b)
    case Write(_) => []
  }

  ghost function Inputs(P: PageSize, ops: seq<Op>): seq<byte>
    requires forall i :: 0 <= i < |ops| ==> OpOk(P, ops[i])
  {
    if ops == [] then [] else Inputs(P, ops[..|ops| - 1]) + Input(P, ops[|ops| - 1])
  }

  /** What an operation makes of the queue, and what it puts on the wire. */
  function Effect(P: PageSize, ws: seq<Writeable>, op: Op): (seq<Writeable>, seq<byte>)
    requires AllOk(P, ws) && OpOk(P, op)
  {
    match op
    case Data(data) => (WithData(P, ws, data), [])
    case SendFile(file, offset, length) => (ws + [Sender(file, offset, length)], [])
    case Whole(b) => (ws + [Mem(b)], [])
    case Write(k) => (WriteFirst(P, ws, k).0, WriteFirst(P, ws, k).2)
  }

  lemma EffectConserves(P: PageSize, ws: seq<Writeable>, op: Op)
    requires AllOk(P, ws) && OpOk(P, op)
    ensures var (ws', sent) := Effect(P, ws, op);
      AllOk(P, ws') && sent + Pending(P, ws') == Pending(P, ws) + Input(P, op)
  {
    match op {
      case Data(data) =>
        WithDataAppends(P, ws, data);
        assert [] + Pending(P, WithData(P, ws, data)) == Pending(P, WithData(P, ws, data));
      case SendFile(file, offset, length) => SnocConserves(P, ws, Sender(file, offset, length));
      case Whole(b) => SnocConserves(P, ws, Mem(b));
      case Write(k) =>
        WriteFirstMoves(P, ws, k);
        assert Pending(P, ws) + [] == Pending(P, ws);
    }
  }

  lemma SnocConserves(P: PageSize, ws: seq<Writeable>, w: Writeable)
    requires AllOk(P, ws) && Ok(P, w)
    ensures AllOk(P, ws + [w]) && [] + Pending(P, ws + [w]) == Pending(P, ws) + Bytes(P, w)
  {
    PendingSnoc(P, ws, w);
  }

  /** The queue after a run of operations, and all that was put on the wire. */
  function Outcome(P: PageSize, ops: seq<Op>): (r: (seq<Writeable>, seq<byte>))
    requires forall i :: 0 <= i < |ops| ==> OpOk(P, ops[i])
    ensures AllOk(P, r.0)
  {
    if ops == [] then ([], [])
    else
      var (ws, wire) := Outcome(P, ops[..|ops| - 1]);
      var op := ops[|ops| - 1];
      EffectConserves(P, ws, op);
      (Effect(P, ws, op).0, wire + Effect(P, ws, op).1)
  }

  lemma Move(wire: seq<byte>, sent: seq<byte>, before: seq<byte>, after: seq<byte>, x: seq<byte>)
    requires sent + after == before + x
    ensures (wire + sent) + after == (wire + before) + x
  {
    Assoc(wire, sent, after);
    Assoc(wire, before, x);
  }

  lemma Carry(wire: seq<byte>, sent: seq<byte>, before: seq<byte>, after: seq<byte>)
    requires sent + after == before
    ensures wire + sent + after == wire + before && |after| == |before| - |sent|
  {
    Assoc(wire, sent, after);
    assert |sent + after| == |before|;
  }

  /** For any interleaving of appends and partial writes, the bytes on the wire followed by the bytes pending are all
      bytes appended, in order. */
  lemma {:induction false} OutputConserved(P: PageSize, ops: seq<Op>)
    requires forall i :: 0 <= i < |ops| ==> OpOk(P, ops[i])
    ensures var (ws, wire) := Outcome(P, ops); wire + Pending(P, ws) == Inputs(P, ops)
  {
    if ops != [] {
      var front, op := ops[..|ops| - 1], ops[|ops| - 1];
      OutputConserved(P, front);
      var (ws, wire) := Outcome(P, front);
      EffectConserves(P, ws, op);
      var (ws', sent) := Effect(P, ws, op);
      Move(wire, sent, Pending(P, ws), Pending(P, ws'), Input(P, op));
    }
  }

  lemma OutcomeSnoc(P: PageSize, ops: seq<Op>, i: nat)
    requires i < |ops| && forall j :: 0 <= j < |ops| ==> OpOk(P, ops[j])
    ensures var before, after := Outcome(P, ops[..i]), Outcome(P, ops[..i + 1]);
      && after.0 == Effect(P, before.0, ops[i]).0
      && after.1 == before.1 + Effect(P, before.0, ops[i]).1
  {
    assert ops[..i + 1][..i] == ops[..i];
  }

  /** The methods of the stream, called in any order, leave the specified queue, and hand the specified bytes to the
      system calls. */
  method Interleave(P: PageSize, ops: seq<Op>) returns (s: OutputStream, wire: seq<byte>)
    requires forall i :: 0 <= i < |ops| ==> OpOk(P, ops[i])
    ensures s.Valid() && s.P == P && s.writeables == Outcome(P, ops).0 && wire == Outcome(P, ops).1
  {
    s := new OutputStream(P);
    wire := [];
    for i := 0 to |ops|
      invariant fresh(s) && s.Valid() && s.P == P
      invariant s.writeables == Outcome(P, ops[..i]).0 && wire == Outcome(P, ops[..i]).1
    {
      OutcomeSnoc(P, ops, i);
      var sent := s.Perform(ops[i]);
      wire := wire + sent;
    }
    assert ops[..|ops|] == ops;
  }

  // ------------------------------------------------------------ flushing

  /** One round of `flush_data`, when the system call would accept `k` bytes; it goes on if something was written. */
  ghost predicate Round(P: PageSize, ws: seq<Writeable>, k: int, ws': seq<Writeable>, more: bool) {
    AllOk(P, ws) && ws' == WriteFirst(P, ws, k).0 && more == (WriteFirst(P, ws, k).1 > 0)
  }

  /** The queues that the loop of `flush_data` goes through: it writes until a write returns nothing or fails;
      `answer(i)` is what the i-th system call would accept. */
  ghost predicate FlushRun(P: PageSize, answer: nat -> int, trace: seq<seq<Writeable>>) {
    && |trace| >= 2
    && forall j :: 0 <= j < |trace| - 1 ==> Round(P, trace[j], answer(j), trace[j + 1], j < |trace| - 2)
  }

  /** Rounds that all went on. */
  ghost predicate Rounds(P: PageSize, answer: nat -> int, trace: seq<seq<Writeable>>) {
    trace != [] && forall j :: 0 <= j < |trace| - 1 ==> Round(P, trace[j], answer(j), trace[j + 1], true)
  }

  lemma LastRound(P: PageSize, answer: nat -> int, trace: seq<seq<Writeable>>, ws: seq<Writeable>, more: bool)
    requires Rounds(P, answer, trace) && Round(P, trace[|trace| - 1], answer(|trace| - 1), ws, more)
    ensures if more then Rounds(P, answer, trace + [ws]) else FlushRun(P, answer, trace + [ws])
  {
    var all := trace + [ws];
    forall j | 0 <= j < |trace| ensures Round(P, all[j], answer(j), all[j + 1], more || j < |trace| - 1) {
      if j < |trace| - 1 {
        assert Round(P, trace[j], answer(j), trace[j + 1], true);
      }
    }
  }

  /** A file has all the bytes that it was appended for. */
  predicate Sendable(w: Writeable) {
    w.File? ==> w.offset + w.length <= |w.file|
  }

  /** Every file is long enough, and nothing before the last writeable is empty. */
  predicate Drainable(ws: seq<Writeable>) {
    && (forall i :: 0 <= i < |ws| ==> Sendable(ws[i]))
    && (forall i :: 0 <= i < |ws| - 1 ==> !Eof(ws[i]))
  }

  lemma DrainableCons(w: Writeable, rest: seq<Writeable>)
    ensures Drainable([w] + rest) <==> Sendable(w) && Drainable(rest) && (rest == [] || !Eof(w))
  {
    var ws := [w] + rest;
    if Drainable(ws) {
      assert Sendable(ws[0]) && (rest != [] ==> !Eof(ws[0]));
      forall i | 0 <= i < |rest| ensures Sendable(rest[i]) && (i < |rest| - 1 ==> !Eof(rest[i])) {
        assert rest[i] == ws[i + 1];
      }
    }
  }

  lemma WrittenSendable(P: PageSize, w: Writeable, accept: int)
    requires Ok(P, w) && accept <= |Offered(P, w)|
    ensures Sendable(Written(P, w, accept)) == Sendable(w)
    ensures accept > 0 ==> !Eof(w) && (Eof(Written(P, w, accept)) ==> Sendable(w))
  {
    if w.Mem? {
      OfferIsPrefix(P, w.b);
    }
  }

  /** A writeable that offers nothing is finished, or is a file that is too short. */
  lemma NothingOffered(P: PageSize, w: Writeable)
    requires Ok(P, w) && Offered(P, w) == []
    ensures Eof(w) == Sendable(w) && Written(P, w, 0) == w
  {
    if w.Mem? {
      OfferIsPrefix(P, w.b);
    }
  }

  /** A write in front of `rest` that sends nothing: the stream is empty afterwards exactly when it was drainable. */
  lemma IdleWrite(P: PageSize, w: Writeable, rest: seq<Writeable>, k: int)
    requires AllOk(P, [w] + rest) && Ok(P, w) && k > 0 && Offered(P, w) == []
    ensures var (ws', res, _) := WriteFirst(P, [w] + rest, k); res == 0 && (ws' == [] <==> Drainable([w] + rest))
  {
    NothingOffered(P, w);
    DrainableCons(w, rest);
    assert ([w] + rest)[0] == w && ([w] + rest)[1..] == rest;
  }

  /** A write that sends something keeps the stream drainable or not. */
  lemma BusyWrite(P: PageSize, w: Writeable, rest: seq<Writeable>, k: int)
    requires AllOk(P, [w] + rest) && Ok(P, w) && k > 0 && Offered(P, w) != []
    ensures var (ws', res, _) := WriteFirst(P, [w] + rest, k); res > 0 && (Drainable(ws') <==> Drainable([w] + rest))
  {
    var accept := Accepted(P, w, k);
    var w' := Written(P, w, accept);
    WrittenSendable(P, w, accept);
    DrainableCons(w, rest);
    DrainableCons(w', rest);
    assert ([w] + rest)[0] == w && ([w] + rest)[1..] == rest;
  }

  ghost predicate AlwaysAccepts(answer: nat -> int) {
    forall j :: answer(j) > 0
  }

  lemma RoundDecides(P: PageSize, ws: seq<Writeable>, k: int, ws': seq<Writeable>, more: bool)
    requires Round(P, ws, k, ws', more) && k > 0
    ensures more ==> (Drainable(ws') <==> Drainable(ws))
    ensures !more ==> (ws' == [] <==> Drainable(ws))
  {
    if ws != [] {
      var w, rest := ws[0], ws[1..];
      assert ws == [w] + rest;
      if Offered(P, w) == [] {
        IdleWrite(P, w, rest, k);
      } else {
        BusyWrite(P, w, rest, k);
      }
    }
  }

  lemma {:induction false} StaysDrainable(P: PageSize, answer: nat -> int, trace: seq<seq<Writeable>>, j: nat)
    requires FlushRun(P, answer, trace) && AlwaysAccepts(answer) && j < |trace| - 1
    ensures Drainable(trace[j]) <==> Drainable(trace[0])
  {
    if j > 0 {
      StaysDrainable(P, answer, trace, j - 1);
      RoundDecides(P, trace[j - 1], answer(j - 1), trace[j], true);
    }
  }

  /** With a socket that always accepts something, `flush_data` empties the stream exactly when every file is long
      enough and no writeable before the last is empty: it stops at the first write that sends nothing. */
  lemma FlushDrainsExactly(P: PageSize, answer: nat -> int, trace: seq<seq<Writeable>>)
    requires FlushRun(P, answer, trace) && AlwaysAccepts(answer)
    ensures trace[|trace| - 1] == [] <==> Drainable(trace[0])
  {
    var j := |trace| - 2;
    StaysDrainable(P, answer, trace, j);
    RoundDecides(P, trace[j], answer(j), trace[j + 1], false);
  }

  /** An empty buffer in front of data keeps `flush_data` from sending the data. */
  lemma EmptyWriteableStopsFlush(P: PageSize, answer: nat -> int, trace: seq<seq<Writeable>>, data: seq<byte>)
    requires FlushRun(P, answer, trace) && AlwaysAccepts(answer) && Valid(P, Empty(P))
    requires trace[0] == [Mem(Empty(P)), Mem(Append(P, Empty(P), data))]
    ensures trace[|trace| - 1] != []
  {
    assert Eof(trace[0][0]);
    FlushDrainsExactly(P, answer, trace);
  }

  // ------------------------------------------------------------ the class

  class OutputStream {
    const P: PageSize
    var writeables: seq<Writeable>
    var memoryUsage: int
    ghost var uncounted: nat         // bytes that arrived as whole buffers

    /** The memory counter misses exactly the bytes that were appended as whole buffers. */
    ghost predicate Valid()
      reads this
    {
      AllOk(P, writeables) && memoryUsage == TotalMemory(writeables) - uncounted
    }

    constructor (pageSize: PageSize)
      ensures Valid() && P == pageSize && writeables == [] && uncounted == 0
    {
      P := pageSize;
      writeables, memoryUsage, uncounted := [], 0, 0;
    }

    /** `append_data`. */
    method AppendData(data: seq<byte>)
      requires Valid()
      modifies this
      ensures Valid() && uncounted == old(uncounted) && writeables == WithData(P, old(writeables), data)
      ensures Pending(P, writeables) == old(Pending(P, writeables)) + data
    {
      WithDataAppends(P, writeables, data);
      EmptyIsValid(P);
      if writeables == [] {
        writeables := [Mem(Empty(P))];
      }
      var n := |writeables| - 1;
      if writeables[n].Mem? {
        writeables := writeables[..n] + [Mem(Append(P, writeables[n].b, data))];
      } else {
        writeables := writeables + [Mem(Append(P, Empty(P), data))];
      }
      memoryUsage := memoryUsage + |data|;
    }

    /** `append_file`. */
    method AppendFile(file: seq<byte>, offset: nat, length: int) returns (size: nat)
      requires Valid() && offset <= |file| && length >= -1
      modifies this
      ensures Valid() && uncounted == old(uncounted) && writeables == old(writeables) + [Sender(file, offset, length)]
      ensures size == if length == -1 then |file| - offset else length
      ensures Pending(P, writeables) == old(Pending(P, writeables)) + file[offset..Min(offset + size, |file|)]
    {
      var w := Sender(file, offset, length);
      PendingSnoc(P, writeables, w);
      writeables := writeables + [w];
      size := w.length;
    }

    /** `append_buffer`: the memory counter is left alone. */
    method AppendBuffer(b: Paged) returns (size: nat)
      requires Valid() && Pages.Valid(P, b)
      modifies this
      ensures Valid() && size == b.size && uncounted == old(uncounted) + b.size && writeables == old(writeables) + [Mem(b)]
      ensures Pending(P, writeables) == old(Pending(P, writeables)) + Contents(P, b)
    {
      PendingSnoc(P, writeables, Mem(b));
      writeables := writeables + [Mem(b)];
      uncounted := uncounted + b.size;
      size := b.size;
    }

    /** `write_into_output`, one write of the first writeable; `sent` is what the system call took. */
    method WriteIntoOutput(k: int) returns (res: int, sent: seq<byte>)
      requires Valid()
      modifies this
      ensures Valid() && uncounted == old(uncounted) && (writeables, res, sent) == WriteFirst(P, old(writeables), k)
      ensures sent + Pending(P, writeables) == old(Pending(P, writeables))
    {
      WriteFirstMoves(P, writeables, k);
      if writeables == [] {
        return 0, [];
      }
      WriteFirstMemory(P, writeables, k);
      var w := writeables[0];
      var accept := Accepted(P, w, k);
      var w' := Written(P, w, accept);
      res := if w.Mem? && w.b.size == 0 then 0 else accept;
      sent := Sent(P, w, accept);
      memoryUsage := memoryUsage - (MemoryUsage(w) - MemoryUsage(w'));
      if Eof(w') {
        writeables := writeables[1..];
      } else {
        writeables := [w'] + writeables[1..];
      }
    }

    /** Any one of the operations above. */
    method Perform(op: Op) returns (sent: seq<byte>)
      requires Valid() && OpOk(P, op)
      modifies this
      ensures Valid() && writeables == Effect(P, old(writeables), op).0 && sent == Effect(P, old(writeables), op).1
    {
      sent := [];
      match op {
        case Data(data) => AppendData(data);
        case SendFile(file, offset, length) => var _ := AppendFile(file, offset, length);
        case Whole(b) => var _ := AppendBuffer(b);
        case Write(k) =>
          var res;
          res, sent := WriteIntoOutput(k);
      }
    }

    /** `flush_data`, on a blocking socket; `wire` is all that the system calls took. The result is the number of bytes
        written, or the error of the write that failed. */
    method FlushData(answer: nat -> int) returns (nwrite: int, wire: seq<byte>, ghost trace: seq<seq<Writeable>>)
      requires Valid()
      modifies this
      ensures Valid() && uncounted == old(uncounted)
      ensures FlushRun(P, answer, trace) && trace[0] == old(writeables) && trace[|trace| - 1] == writeables
      ensures wire + Pending(P, writeables) == old(Pending(P, writeables))
      ensures nwrite < 0 <==> var last := trace[|trace| - 2]; last != [] && !EmptyBuffer(last[0]) && answer(|trace| - 2) < 0
      ensures if nwrite < 0 then nwrite == answer(|trace| - 2) else |wire| == nwrite
      ensures AlwaysAccepts(answer) ==> nwrite >= 0 && (writeables == [] <==> Drainable(old(writeables)))
    {
      nwrite, wire, trace := 0, [], [writeables];
      ghost var all := Pending(P, writeables);
      var i := 0;
      while true
        invariant Valid() && uncounted == old(uncounted) && nwrite == |wire| && wire + Pending(P, writeables) == all
        invariant |trace| == i + 1 && trace[0] == old(writeables) && trace[i] == writeables && Rounds(P, answer, trace)
        decreases |Pending(P, writeables)|
      {
        ghost var ws := writeables;
        WriteFirstMoves(P, ws, answer(i));
        ErrorExactly(P, ws, answer(i));
        var rs, sent := WriteIntoOutput(answer(i));
        assert Round(P, ws, answer(i), writeables, rs > 0);
        Carry(wire, sent, Pending(P, ws), Pending(P, writeables));
        wire := wire + sent;
        LastRound(P, answer, trace, writeables, rs > 0);
        trace := trace + [writeables];
        assert |trace| - 2 == i && trace[i] == ws;
        if rs < 0 {
          nwrite := rs;
          break;
        } else if rs == 0 {
          break;
        }
        nwrite := nwrite + rs;
        i := i + 1;
      }
      if AlwaysAccepts(answer) {
        FlushDrainsExactly(P, answer, trace);
      }
    }
  }
}
