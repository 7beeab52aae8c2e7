/** FastCGI record framing over the paged buffer (sections 3.3 and 3.4 of the FastCGI Specification 1.0). */
module Fcgi {
  import opened Basics
  import opened Pages
  import opened BufferClass

  type u16 = x: nat | x < 65536

  const RECORD_SIZE: nat := 8
  const BEGIN_REQUEST_TYPE: byte := 1
  const PARAMS_TYPE: byte := 4
  const STDIN_TYPE: byte := 5
  const ENVIRONMENT_SIZE_LIMIT: nat := 65535

  datatype Record = Record(version: byte, typ: byte, requestId: u16, contentLength: u16, padding: byte, reserved: byte)

  function NewRecord(typ: byte): Record {
    Record(1, typ, 1, 0, 0, 0)
  }

  /** `set_content_length` keeps 16 bits of the size and pads to a multiple of four. */
  function SetContentLength(rec: Record, size: nat): Record {
    var n := size % 65536;
    rec.(contentLength := n, padding := if n % 4 == 0 then 0 else 4 - n % 4)
  }

  function TotalLength(rec: Record): nat {
    rec.contentLength + rec.padding
  }

  /** The eight bytes of a header: the two 16-bit numbers are big-endian. */
  function Header(rec: Record): (r: seq<byte>)
    ensures |r| == RECORD_SIZE
  {
    [rec.version, rec.typ, rec.requestId / 256, rec.requestId % 256, rec.contentLength / 256, rec.contentLength % 256,
     rec.padding, rec.reserved]
  }

  function Number(hi: nat, lo: nat): u16
    requires hi < 256 && lo < 256
  {
    hi * 256 + lo
  }

  function ParseHeader(h: seq<byte>): Record
    requires |h| == RECORD_SIZE
  {
    Record(h[0], h[1], Number(h[2], h[3]), Number(h[4], h[5]), h[6], h[7])
  }

  lemma HeaderRoundTrip(rec: Record, h: seq<byte>)
    requires |h| == RECORD_SIZE
    ensures ParseHeader(Header(rec)) == rec && Header(ParseHeader(h)) == h
  {
  }

  /** The bytes of a header, in the order and byte order of section 3.3. */
  lemma HeaderBytes(rec: Record)
    ensures var h := Header(rec);
      && h[0] == rec.version && h[1] == rec.typ && h[6] == rec.padding && h[7] == rec.reserved
      && (h[2] as int) * 256 + h[3] as int == rec.requestId && (h[4] as int) * 256 + h[5] as int == rec.contentLength
  {
  }

  /** What follows a header is the least multiple of four that is not below the content length, and that is the size
      itself unless it needs more than 16 bits. */
  lemma TotalIsLeast(rec: Record, size: nat, n: nat)
    ensures var r := SetContentLength(rec, size);
      && r == rec.(contentLength := r.contentLength, padding := r.padding) && r.contentLength == size % 65536
      && TotalLength(r) % 4 == 0 && r.contentLength <= TotalLength(r)
      && (n % 4 == 0 && r.contentLength <= n ==> TotalLength(r) <= n)
  {
    NextMultiple(size % 65536, n);
  }

  lemma NextMultiple(x: nat, n: nat)
    ensures var y := x + (if x % 4 == 0 then 0 else 4 - x % 4);
      y % 4 == 0 && (n % 4 == 0 && x <= n ==> y <= n)
  {
  }

  /** `append_to_buffer_content_data`: `data` has at least as many bytes as the record says. */
  function Payload(rec: Record, data: seq<byte>): seq<byte>
    requires rec.contentLength <= |data|
  {
    if rec.contentLength == 0 then [] else data[..rec.contentLength] + Zeros(rec.padding)
  }

  /** The content is followed by zeros up to the total length; a record without content has neither. */
  lemma PayloadBytes(rec: Record, size: nat, data: seq<byte>)
    requires rec == SetContentLength(rec, size) && rec.contentLength <= |data|
    ensures var s := Payload(rec, data);
      && |s| == TotalLength(rec) && s[..rec.contentLength] == data[..rec.contentLength]
      && forall k :: rec.contentLength <= k < |s| ==> s[k] == 0
  {
  }

  // ------------------------------------------------------------ records on the wire

  datatype Message = Message(version: byte, typ: byte, requestId: u16, reserved: byte, content: seq<byte>)

  predicate Fits(x: Message) {
    |x.content| <= 65535
  }

  function RecordOf(x: Message): Record {
    SetContentLength(Record(x.version, x.typ, x.requestId, 0, 0, x.reserved), |x.content|)
  }

  function Frame(x: Message): seq<byte> {
    Header(RecordOf(x)) + Payload(RecordOf(x), x.content)
  }

  function Wire(xs: seq<Message>): seq<byte> {
    if xs == [] then [] else Frame(xs[0]) + Wire(xs[1..])
  }

  /** `extract_record` on the bytes of a buffer: what is left, and the record if there is one. */
  function Extract(c: seq<byte>): (seq<byte>, Option<Record>) {
    if |c| < RECORD_SIZE then (c, None)
    else
      var rec := ParseHeader(c[..RECORD_SIZE]);
      if |c| < TotalLength(rec) then (c, None) else (c[RECORD_SIZE..], Some(rec))
  }

  /** Takes the content of a record, and removes content and padding if all of it is there. */
  function Consume(c: seq<byte>, rec: Record): (seq<byte>, seq<byte>) {
    (if |c| < TotalLength(rec) then c else c[TotalLength(rec)..],
     c[..if |c| < rec.contentLength then |c| else rec.contentLength])
  }

  function ReadAll(c: seq<byte>): (seq<Message>, seq<byte>)
    decreases |c|
  {
    var (c1, rec) := Extract(c);
    if rec.None? then ([], c)
    else
      var r := rec.value;
      var (c2, content) := Consume(c1, r);
      var (xs, rest) := ReadAll(c2);
      ([Message(r.version, r.typ, r.requestId, r.reserved, content)] + xs, rest)
  }

  lemma ReadUnfold(c: seq<byte>, c1: seq<byte>, r: Record, c2: seq<byte>, content: seq<byte>)
    requires Extract(c) == (c1, Some(r)) && Consume(c1, r) == (c2, content)
    ensures |c2| < |c|
    ensures ReadAll(c) == ([Message(r.version, r.typ, r.requestId, r.reserved, content)] + ReadAll(c2).0, ReadAll(c2).1)
  {
  }

  /** What a record can carry of its content. */
  function Carried(x: Message): Message {
    x.(content := x.content[..|x.content| % 65536])
  }

  lemma PayloadLength(x: Message)
    ensures RecordOf(x).contentLength == |Carried(x).content|
    ensures |Payload(RecordOf(x), x.content)| == TotalLength(RecordOf(x))
    ensures Carried(x).content <= Payload(RecordOf(x), x.content)
  {
  }

  lemma FrameIsRead(x: Message, tail: seq<byte>)
    ensures var rec := RecordOf(x); Extract(Frame(x) + tail) == (Payload(rec, x.content) + tail, Some(rec))
    ensures Consume(Payload(RecordOf(x), x.content) + tail, RecordOf(x)) == (tail, Carried(x).content)
  {
    var rec := RecordOf(x);
    var payload := Payload(rec, x.content);
    PayloadLength(x);
    var c := Frame(x) + tail;
    assert c == Header(rec) + (payload + tail);
    assert c[..RECORD_SIZE] == Header(rec) && c[RECORD_SIZE..] == payload + tail;
    HeaderRoundTrip(rec, Header(rec));
    assert (payload + tail)[|payload|..] == tail;
    assert (payload + tail)[..rec.contentLength] == Carried(x).content;
  }

  lemma FirstIsRead(x: Message, tail: seq<byte>)
    ensures ReadAll(Frame(x) + tail) == ([Carried(x)] + ReadAll(tail).0, ReadAll(tail).1)
  {
    var rec := RecordOf(x);
    FrameIsRead(x, tail);
    ReadUnfold(Frame(x) + tail, Payload(rec, x.content) + tail, rec, tail, Carried(x).content);
  }

  function CarriedAll(xs: seq<Message>): seq<Message> {
    seq(|xs|, i requires 0 <= i < |xs| => Carried(xs[i]))
  }

  lemma CarriedCons(xs: seq<Message>)
    requires xs != []
    ensures CarriedAll(xs) == [Carried(xs[0])] + CarriedAll(xs[1..])
  {
  }

  lemma {:induction false} WireIsRead(xs: seq<Message>)
    ensures ReadAll(Wire(xs)) == (CarriedAll(xs), [])
  {
    if xs != [] {
      var rest := xs[1..];
      var tail := Wire(rest);
      assert Wire(xs) == Frame(xs[0]) + tail;
      FirstIsRead(xs[0], tail);
      WireIsRead(rest);
      CarriedCons(xs);
    } else {
      assert CarriedAll(xs) == [];
    }
  }

  lemma CarriedExactly(xs: seq<Message>)
    ensures CarriedAll(xs) == xs <==> forall i :: 0 <= i < |xs| ==> Fits(xs[i])
  {
    forall i | 0 <= i < |xs| ensures Fits(xs[i]) <==> CarriedAll(xs)[i] == xs[i] {
      assert Fits(xs[i]) ==> xs[i].content[..|xs[i].content| % 65536] == xs[i].content;
    }
  }

  /** A list of records that is completely buffered is read back unchanged, leaving nothing, exactly when no
      content is longer than 65535 bytes. */
  lemma WireRoundTripExactly(xs: seq<Message>)
    ensures ReadAll(Wire(xs)) == (xs, []) <==> forall i :: 0 <= i < |xs| ==> Fits(xs[i])
  {
    WireIsRead(xs);
    CarriedExactly(xs);
  }

  lemma WireFrom(xs: seq<Message>, i: nat)
    requires i < |xs|
    ensures Wire(xs[i..]) == Frame(xs[i]) + Wire(xs[i + 1..])
  {
  }

  /** A record reaches the reader before its content is complete exactly when the buffer holds the header and as
      many bytes as the content has, but not both: the size check does not count the header. */
  lemma PrematureExactly(c: seq<byte>)
    requires |c| >= RECORD_SIZE
    ensures var total := TotalLength(ParseHeader(c[..RECORD_SIZE]));
      var (rest, rec) := Extract(c);
      rec.Some? && |rest| < TotalLength(rec.value) <==> total <= |c| < RECORD_SIZE + total
  {
  }

  /** What is buffered of an incomplete record is misread: its content stays and is taken for the next header. */
  lemma PrematureIsMisread(x: Message, k: nat)
    requires Fits(x) && RECORD_SIZE <= k < |Frame(x)| && k >= TotalLength(RecordOf(x))
    ensures ReadAll(Frame(x)[..k]).0 != [] && ReadAll(Frame(x)[..k]) != ([x], [])
  {
    var c, rec := Frame(x)[..k], RecordOf(x);
    PayloadLength(x);
    HeaderRoundTrip(rec, Header(rec));
    assert c[..RECORD_SIZE] == Header(rec);
    var (c1, _) := Extract(c);
    assert Consume(c1, rec).0 == c1;
    ReadAllLeaves(c1);
    if c1 == [] {
      assert ReadAll(c).0[0].content == [] != x.content;
    } else {
      assert ReadAll(c).0 == [ReadAll(c).0[0]] + ReadAll(c1).0;
      assert |ReadAll(c).0| == 1 ==> ReadAll(c1).0 == [];
    }
  }

  /** Nothing is lost without a header being read. */
  lemma ReadAllLeaves(c: seq<byte>)
    ensures ReadAll(c).0 == [] ==> ReadAll(c).1 == c
  {
  }

  /** A header that announces four bytes of content is handed out when nothing of the content has arrived. */
  lemma PrematureExample(x: Message)
    requires |x.content| == 4
    ensures Extract(Header(RecordOf(x))) == ([], Some(RecordOf(x)))
  {
    var h := Header(RecordOf(x));
    assert h[..RECORD_SIZE] == h && h[RECORD_SIZE..] == [];
    HeaderRoundTrip(RecordOf(x), h);
  }

  /** A content of 65536 bytes arrives empty. */
  lemma LongContentIsLost(xs: seq<Message>)
    requires |xs| == 1 && |xs[0].content| == 65536
    ensures ReadAll(Wire(xs)).0 == [xs[0].(content := [])]
  {
    WireIsRead(xs);
    assert Carried(xs[0]) == xs[0].(content := []);
    assert CarriedAll(xs) == [Carried(xs[0])];
  }

  // ------------------------------------------------------------ name/value pairs

  datatype Pair = Pair(name: seq<byte>, value: seq<byte>)

  predicate Short(p: Pair) {
    |p.name| <= 127 && |p.value| <= 127
  }

  function AppendInt(n: nat): (r: seq<byte>)
    ensures |r| == 4
  {
    var v := n % 0x1_0000_0000;
    [v / 0x100_0000, v / 0x1_0000 % 256, v / 256 % 256, v % 256]
  }

  /** `set_environment` writes a long length in four bytes, without the flag that marks it as such. */
  function EncodeLength(n: nat): (r: seq<byte>)
    ensures |r| >= 1
  {
    if n > 127 then AppendInt(n) else [n]
  }

  /** A length of at most 127 is one byte; any other is four bytes, the most significant first, of its low 32 bits. */
  lemma LengthBytes(n: nat)
    ensures var s := EncodeLength(n);
      if n <= 127 then s == [n]
      else |s| == 4 && Weighed(s) == n % 0x1_0000_0000
  {
    BigEndian(n);
  }

  /** The value of four bytes, the most significant first. */
  function Weighed(s: seq<byte>): int
    requires |s| == 4
  {
    ((s[0] as int * 256 + s[1] as int) * 256 + s[2] as int) * 256 + s[3] as int
  }

  lemma BigEndian(n: nat)
    ensures Weighed(AppendInt(n)) == n % 0x1_0000_0000
  {
    var v := n % 0x1_0000_0000;
    assert v / 0x1_0000 == v / 256 / 256 && v / 0x100_0000 == v / 256 / 256 / 256;
  }

  /** Section 3.4 wants the high bit of the first of the four bytes set; with it, every length of 31 bits is read back. */
  lemma FlaggedLengthIsRead(n: nat, tail: seq<byte>)
    requires n < 0x8000_0000
    ensures var s := AppendInt(n); DecodeLength([s[0] + 128] + s[1..] + tail) == Some((n, 4))
  {
    BigEndian(n);
    var s := AppendInt(n);
    var all := [s[0] + 128] + s[1..] + tail;
    assert all[0] == s[0] + 128 && all[1] == s[1] && all[2] == s[2] && all[3] == s[3];
  }

  function EncodePair(p: Pair): seq<byte> {
    EncodeLength(|p.name|) + EncodeLength(|p.value|) + p.name + p.value
  }

  /** Both lengths come first, that of the name before that of the value; then the name, then the value. */
  lemma ShortPairBytes(p: Pair)
    requires Short(p)
    ensures var s, n := EncodePair(p), |p.name|;
      && |s| == 2 + n + |p.value| && s[0] == n && s[1] == |p.value| && s[2..2 + n] == p.name && s[2 + n..] == p.value
  {
  }

  function EncodePairs(ps: seq<Pair>): seq<byte> {
    if ps == [] then [] else EncodePair(ps[0]) + EncodePairs(ps[1..])
  }

  function LongLength(b0: nat, b1: nat, b2: nat, b3: nat): nat
    requires b0 >= 128
  {
    (b0 - 128) * 0x100_0000 + b1 * 0x1_0000 + b2 * 256 + b3
  }

  /** The length that starts with byte `s[0]`, and how many bytes it takes: four if the high bit is set. */
  function DecodeLength(s: seq<byte>): Option<(nat, nat)> {
    if s == [] then None
    else if s[0] < 128 then Some((s[0], 1))
    else if |s| < 4 then None
    else Some((LongLength(s[0], s[1], s[2], s[3]), 4))
  }

  /** The first pair of a list, and where the next one begins. */
  function DecodePair(s: seq<byte>): (r: Option<(Pair, nat)>)
    ensures r.Some? ==> 0 < r.value.1 <= |s|
  {
    var name := DecodeLength(s);
    if name.None? then None
    else
      var (n, j) := name.value;
      var value := DecodeLength(s[j..]);
      if value.None? then None
      else
        var (v, k) := value.value;
        if |s| < j + k + n + v then None
        else Some((Pair(s[j + k..j + k + n], s[j + k + n..j + k + n + v]), j + k + n + v))
  }

  function DecodePairs(s: seq<byte>): Option<seq<Pair>>
    decreases |s|
  {
    if s == [] then Some([])
    else
      var first := DecodePair(s);
      if first.None? then None
      else
        var rest := DecodePairs(s[first.value.1..]);
        if rest.None? then None else Some([first.value.0] + rest.value)
  }

  /** A length is read back exactly when it needs one byte. */
  lemma LengthExactly(n: nat, tail: seq<byte>)
    ensures n <= 127 ==> DecodeLength(EncodeLength(n) + tail) == Some((n, 1))
    ensures n > 127 ==> var d := DecodeLength(EncodeLength(n) + tail); d.Some? && d.value.0 < n
  {
  }

  lemma ShortPairIsRead(p: Pair, tail: seq<byte>)
    requires Short(p)
    ensures DecodePair(EncodePair(p) + tail) == Some((p, |EncodePair(p)|))
  {
    ShortPairBytes(p);
    var e, n, v := EncodePair(p), |p.name|, |p.value|;
    var s := e + tail;
    assert s[0] == e[0] && s[1..][0] == e[1];
    assert s[2..2 + n] == e[2..2 + n] && s[2 + n..2 + n + v] == e[2 + n..];
  }

  /** A long name or value is never read back. */
  lemma LongPairIsMisread(p: Pair, tail: seq<byte>)
    requires !Short(p)
    ensures var r := DecodePair(EncodePair(p) + tail); r.Some? ==> r.value.0 != p
  {
    var s := EncodePair(p) + tail;
    var after := EncodeLength(|p.value|) + p.name + p.value + tail;
    assert s == EncodeLength(|p.name|) + after;
    LengthExactly(|p.name|, after);
    if |p.name| <= 127 {
      assert s[1..] == EncodeLength(|p.value|) + (p.name + p.value + tail);
      LengthExactly(|p.value|, p.name + p.value + tail);
    }
  }

  lemma ConsIsSome(first: Pair, rest: seq<Pair>, r: Option<seq<Pair>>)
    ensures r.Some? && [first] + r.value == [first] + rest <==> r == Some(rest)
  {
    if r.Some? && [first] + r.value == [first] + rest {
      assert ([first] + r.value)[1..] == r.value && ([first] + rest)[1..] == rest;
    }
  }

  lemma AllShort(ps: seq<Pair>)
    requires ps != [] && Short(ps[0])
    ensures ps == [ps[0]] + ps[1..]
    ensures (forall i :: 0 <= i < |ps| ==> Short(ps[i])) <==> forall i :: 0 <= i < |ps[1..]| ==> Short(ps[1..][i])
  {
  }

  /** The pairs written by `set_environment` decode to themselves exactly when every name and value has at most
      127 bytes. */
  lemma {:induction false} PairsRoundTripExactly(ps: seq<Pair>)
    ensures DecodePairs(EncodePairs(ps)) == Some(ps) <==> forall i :: 0 <= i < |ps| ==> Short(ps[i])
  {
    if ps != [] {
      var first, rest := ps[0], ps[1..];
      var tail := EncodePairs(rest);
      var s := EncodePair(first) + tail;
      if Short(first) {
        ShortPairIsRead(first, tail);
        PairsRoundTripExactly(rest);
        assert s[|EncodePair(first)|..] == tail;
        ConsIsSome(first, rest, DecodePairs(tail));
        AllShort(ps);
      } else {
        LongPairIsMisread(first, tail);
      }
    }
  }

  /** A length or a pair that is read does not depend on what follows it. */
  lemma DecodeLengthAhead(c: seq<byte>, s: seq<byte>)
    requires c <= s && DecodeLength(c).Some?
    ensures DecodeLength(s) == DecodeLength(c)
  {
  }

  lemma DecodePairAhead(c: seq<byte>, s: seq<byte>)
    requires c <= s && DecodePair(c).Some?
    ensures DecodePair(s) == DecodePair(c)
  {
    DecodeLengthAhead(c, s);
    var j := DecodeLength(c).value.1;
    assert c[j..] <= s[j..];
    DecodeLengthAhead(c[j..], s[j..]);
    var (n, _) := DecodeLength(c).value;
    var (v, k) := DecodeLength(c[j..]).value;
    SameSlice(c, s, j + k, j + k + n);
    SameSlice(c, s, j + k + n, j + k + n + v);
  }

  lemma SameSlice(c: seq<byte>, s: seq<byte>, a: nat, b: nat)
    requires c <= s && a <= b <= |c|
    ensures c[a..b] == s[a..b]
  {
  }

  lemma SuffixPrefix(c: seq<byte>, a: seq<byte>, b: seq<byte>)
    requires |a| <= |c| && c <= a + b
    ensures c[|a|..] <= b
  {
    assert (a + b)[|a|..] == b;
  }

  /** Pairs that are cut short anywhere are not read back. */
  lemma {:induction false} CutPairsAreMisread(ps: seq<Pair>, c: seq<byte>)
    requires c <= EncodePairs(ps) && |c| < |EncodePairs(ps)|
    ensures DecodePairs(c) != Some(ps)
    decreases |ps|
  {
    if c != [] && DecodePair(c).Some? {
      var first, rest := ps[0], ps[1..];
      var a, b := EncodePair(first), EncodePairs(rest);
      DecodePairAhead(c, a + b);
      if Short(first) {
        ShortPairIsRead(first, b);
        SuffixPrefix(c, a, b);
        CutPairsAreMisread(rest, c[|a|..]);
        ConsIsSome(first, rest, DecodePairs(c[|a|..]));
        assert ps == [first] + rest;
      } else {
        LongPairIsMisread(first, b);
      }
    }
  }

  /** A name of 128 bytes is written as four length bytes that begin with zero, and is read as an empty name. */
  lemma LongNameIsLost(p: Pair)
    requires |p.name| == 128
    ensures DecodePairs(EncodePairs([p])) != Some([p])
  {
    PairsRoundTripExactly([p]);
    assert !Short([p][0]);
  }
}
