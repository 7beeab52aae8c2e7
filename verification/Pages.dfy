/** The value of a paged byte queue: full pages of `P` bytes, of which the first `left` and the last
    `right` bytes are not part of the contents. */
module Pages {
  import opened Basics

  type byte = x: int | 0 <= x < 256

  /** The page size, a parameter of everything below. */
  type PageSize = x: nat | x > 0 witness 1

  datatype Paged = Paged(pages: seq<seq<byte>>, left: nat, right: nat, size: nat)

  function Zeros(n: nat): seq<byte> {
    seq(n, _ => 0)
  }

  function Flat(pages: seq<seq<byte>>): seq<byte> {
    if pages == [] then [] else pages[0] + Flat(pages[1..])
  }

  ghost predicate AllFull(P: PageSize, pages: seq<seq<byte>>) {
    forall i :: 0 <= i < |pages| ==> |pages[i]| == P
  }

  ghost predicate Valid(P: PageSize, b: Paged) {
    && |b.pages| >= 1 && AllFull(P, b.pages)
    && b.left < P && b.right <= P
    && b.left + b.size + b.right == |Flat(b.pages)|
  }

  /** The size counter is what the page count and the two offsets say. */
  lemma SizeLaw(P: PageSize, b: Paged)
    requires |b.pages| >= 1 && AllFull(P, b.pages) && b.left < P && b.right <= P
    ensures Valid(P, b) <==> b.size == |b.pages| * P - b.left - b.right
  {
    FlatLength(P, b.pages);
  }

  /** The bytes queued in `b`, oldest first. */
  ghost function Contents(P: PageSize, b: Paged): (r: seq<byte>)
    requires Valid(P, b)
    ensures |r| == b.size
  {
    Flat(b.pages)[b.left..|Flat(b.pages)| - b.right]
  }

  function Empty(P: PageSize): Paged {
    Paged([Zeros(P)], 0, P, 0)
  }

  // ------------------------------------------------------------ flattening

  lemma {:induction false} FlatLength(P: PageSize, pages: seq<seq<byte>>)
    requires AllFull(P, pages)
    ensures |Flat(pages)| == |pages| * P
  {
    if pages != [] {
      FlatLength(P, pages[1..]);
      assert (|pages| - 1) * P + P == |pages| * P;
    }
  }

  lemma {:induction false} FlatConcat(a: seq<seq<byte>>, b: seq<seq<byte>>)
    ensures Flat(a + b) == Flat(a) + Flat(b)
  {
    if a == [] {
      assert a + b == b;
    } else {
      FlatConcat(a[1..], b);
      assert (a + b)[1..] == a[1..] + b;
      Assoc(a[0], Flat(a[1..]), Flat(b));
    }
  }

  lemma FlatOne(pages: seq<seq<byte>>)
    requires |pages| == 1
    ensures Flat(pages) == pages[0]
  {
  }

  lemma FlatSnoc(a: seq<seq<byte>>, p: seq<byte>)
    ensures Flat(a + [p]) == Flat(a) + p
  {
    FlatConcat(a, [p]);
    FlatOne([p]);
  }

  lemma FlatSplit(P: PageSize, pages: seq<seq<byte>>, n: nat)
    requires AllFull(P, pages) && n <= |pages|
    ensures n * P <= |Flat(pages)| && Flat(pages)[..n * P] == Flat(pages[..n]) && Flat(pages)[n * P..] == Flat(pages[n..])
  {
    assert pages == pages[..n] + pages[n..];
    FlatConcat(pages[..n], pages[n..]);
    FlatLength(P, pages[..n]);
  }

  // ------------------------------------------------------------ append

  /** The last page with `data` copied to the start of its free bytes. */
  function Fill(P: PageSize, page: seq<byte>, right: nat, data: seq<byte>): seq<byte>
    requires |page| == P && right <= P && |data| <= right
  {
    page[..P - right] + data + page[P - right + |data|..]
  }

  function ReplaceLast(pages: seq<seq<byte>>, page: seq<byte>): seq<seq<byte>>
    requires |pages| >= 1
  {
    pages[..|pages| - 1] + [page]
  }

  /** New pages that hold `data`; the last one always keeps at least one free byte. */
  function FreshPages(P: PageSize, data: seq<byte>): (r: seq<seq<byte>>)
    ensures |r| >= 1 && AllFull(P, r)
    decreases |data|
  {
    if |data| < P then [data + Zeros(P - |data|)] else [data[..P]] + FreshPages(P, data[P..])
  }

  /** The free bytes that `n` bytes leave in the last new page. */
  function FreeAfter(P: PageSize, n: nat): (r: nat)
    ensures 0 < r <= P
  {
    if n < P then P - n else FreeAfter(P, n - P)
  }

  lemma MulMono(a: int, b: int, P: PageSize)
    ensures a <= b ==> a * P <= b * P
  {
  }

  function Append(P: PageSize, b: Paged, data: seq<byte>): Paged
    requires Valid(P, b)
  {
    var last := b.pages[|b.pages| - 1];
    if |data| < b.right then
      Paged(ReplaceLast(b.pages, Fill(P, last, b.right, data)), b.left, b.right - |data|, b.size + |data|)
    else
      var rest := data[b.right..];
      Paged(ReplaceLast(b.pages, Fill(P, last, b.right, data[..b.right])) + FreshPages(P, rest),
            b.left, FreeAfter(P, |rest|), b.size + |data|)
  }

  lemma {:induction false} FreshPagesHold(P: PageSize, data: seq<byte>)
    ensures |Flat(FreshPages(P, data))| == |data| + FreeAfter(P, |data|)
    ensures Flat(FreshPages(P, data))[..|data|] == data
    decreases |data|
  {
    if |data| < P {
      assert Flat(FreshPages(P, data)) == data + Zeros(P - |data|) + [];
    } else {
      FreshPagesHold(P, data[P..]);
      var r := FreshPages(P, data[P..]);
      assert ([data[..P]] + r)[1..] == r;
      assert Flat([data[..P]] + r) == data[..P] + Flat(r);
    }
  }

  lemma Extend(a: seq<byte>, b: seq<byte>, l: nat, rest: seq<byte>)
    requires l <= |a| && |rest| <= |b| && b[..|rest|] == rest
    ensures (a + b)[l..|a| + |rest|] == a[l..] + rest
  {
  }

  /** Filling the last page appends the data to the contents. */
  lemma FillExtends(P: PageSize, b: Paged, data: seq<byte>)
    requires Valid(P, b) && |data| <= b.right
    ensures var pages := ReplaceLast(b.pages, Fill(P, b.pages[|b.pages| - 1], b.right, data));
      && AllFull(P, pages) && |pages| == |b.pages| && |Flat(pages)| == |Flat(b.pages)|
      && b.left + b.size + |data| <= |Flat(pages)|
      && Flat(pages)[b.left..b.left + b.size + |data|] == Contents(P, b) + data
  {
    var n := |b.pages| - 1;
    var last := b.pages[n];
    var front := b.pages[..n];
    var kept := last[..P - b.right];
    assert b.pages == front + [last];
    FlatSnoc(front, last);
    FlatSnoc(front, Fill(P, last, b.right, data));
    var whole := Flat(front) + kept;
    assert Flat(b.pages) == whole + last[P - b.right..];
    assert Contents(P, b) == whole[b.left..];
    var tail := data + last[P - b.right + |data|..];
    assert Flat(front) + Fill(P, last, b.right, data) == whole + tail;
    Extend(whole, tail, b.left, data);
  }

  lemma AppendInPage(P: PageSize, b: Paged, data: seq<byte>)
    requires Valid(P, b) && |data| <= b.right
    ensures var r := Paged(ReplaceLast(b.pages, Fill(P, b.pages[|b.pages| - 1], b.right, data)),
                           b.left, b.right - |data|, b.size + |data|);
      Valid(P, r) && Contents(P, r) == Contents(P, b) + data
  {
    FillExtends(P, b, data);
  }

  /** A queue whose last page is full grows by pages that start with `rest`. */
  lemma AppendPages(P: PageSize, b: Paged, more: seq<seq<byte>>, rest: seq<byte>)
    requires Valid(P, b) && b.right == 0 && AllFull(P, more) && |more| >= 1
    requires |rest| <= |Flat(more)| <= |rest| + P && Flat(more)[..|rest|] == rest
    ensures var r := Paged(b.pages + more, b.left, |Flat(more)| - |rest|, b.size + |rest|);
      Valid(P, r) && Contents(P, r) == Contents(P, b) + rest
  {
    FlatConcat(b.pages, more);
    Extend(Flat(b.pages), Flat(more), b.left, rest);
  }

  lemma AppendRefines(P: PageSize, b: Paged, data: seq<byte>)
    requires Valid(P, b)
    ensures Valid(P, Append(P, b, data))
    ensures Contents(P, Append(P, b, data)) == Contents(P, b) + data
  {
    if |data| < b.right {
      AppendInPage(P, b, data);
    } else {
      var head, rest := data[..b.right], data[b.right..];
      AppendInPage(P, b, head);
      var full := Paged(ReplaceLast(b.pages, Fill(P, b.pages[|b.pages| - 1], b.right, head)),
                        b.left, 0, b.size + |head|);
      FreshPagesHold(P, rest);
      AppendPages(P, full, FreshPages(P, rest), rest);
      assert Contents(P, b) + head + rest == Contents(P, b) + data;
    }
  }

  // ------------------------------------------------------------ pop

  /** The page that byte `n` of the flattened pages lies in, and its offset there. */
  function PageOf(P: PageSize, n: nat): nat {
    n / P
  }

  function OffsetOf(P: PageSize, n: nat): nat {
    n % P
  }

  /** `Buffer::pop`: a short queue is left alone, and the last page is never dropped. */
  function Pop(P: PageSize, b: Paged, n: nat): Paged
    requires Valid(P, b)
  {
    if b.size < n then b
    else
      var quot := PageOf(P, n + b.left);
      var drop := if quot < |b.pages| then quot else |b.pages| - 1;
      if b.size == n then Paged(b.pages[drop..], 0, P, 0)
      else Paged(b.pages[drop..], OffsetOf(P, n + b.left), b.right, b.size - n)
  }

  lemma PopArithmetic(P: PageSize, b: Paged, n: nat)
    requires Valid(P, b) && n <= b.size
    ensures var quot := PageOf(P, n + b.left);
      && n + b.left == quot * P + OffsetOf(P, n + b.left) && OffsetOf(P, n + b.left) < P
      && (n < b.size ==> quot < |b.pages|)
      && (n == b.size ==> quot >= |b.pages| - 1)
  {
    var quot := PageOf(P, n + b.left);
    FlatLength(P, b.pages);
    MulMono(|b.pages|, quot, P);
    MulMono(quot, |b.pages| - 2, P);
    assert (|b.pages| - 2) * P == |b.pages| * P - 2 * P;
  }

  lemma DropSlice(flat: seq<byte>, l: nat, r: nat, n: nat, k: nat)
    requires l + n + r <= |flat| && k <= l + n
    ensures flat[k..][l + n - k..|flat| - k - r] == flat[l..|flat| - r][n..]
  {
  }

  lemma PopPages(P: PageSize, b: Paged, n: nat, quot: nat, rem: nat)
    requires Valid(P, b) && n < b.size && n + b.left == quot * P + rem && rem < P && quot < |b.pages|
    ensures var r := Paged(b.pages[quot..], rem, b.right, b.size - n);
      Valid(P, r) && Contents(P, r) == Contents(P, b)[n..]
  {
    FlatSplit(P, b.pages, quot);
    var flat, k := Flat(b.pages), quot * P;
    assert Flat(b.pages[quot..]) == flat[k..] && rem == b.left + n - k;
    DropSlice(flat, b.left, b.right, n, k);
  }

  lemma PopRefines(P: PageSize, b: Paged, n: nat)
    requires Valid(P, b)
    ensures Valid(P, Pop(P, b, n))
    ensures Contents(P, Pop(P, b, n)) == if b.size < n then Contents(P, b) else Contents(P, b)[n..]
  {
    if n <= b.size {
      PopArithmetic(P, b, n);
      if n < b.size {
        PopPages(P, b, n, PageOf(P, n + b.left), OffsetOf(P, n + b.left));
      } else {
        FlatOne(Pop(P, b, n).pages);
      }
    }
  }

  // ------------------------------------------------------------ read

  /** `Buffer::read_from_fd` after a vectored read that delivered `input`: it fills the last page first
      and spills into the spare page. */
  function Read(P: PageSize, b: Paged, input: seq<byte>): Paged
    requires Valid(P, b) && |input| <= b.right + P
  {
    var last := b.pages[|b.pages| - 1];
    if b.right <= |input| then
      var spill := input[b.right..];
      Paged(ReplaceLast(b.pages, Fill(P, last, b.right, input[..b.right])) + [spill + Zeros(P - |spill|)],
            b.left, P + b.right - |input|, b.size + |input|)
    else
      Paged(ReplaceLast(b.pages, Fill(P, last, b.right, input)), b.left, b.right - |input|, b.size + |input|)
  }

  lemma ReadRefines(P: PageSize, b: Paged, input: seq<byte>)
    requires Valid(P, b) && |input| <= b.right + P
    ensures Valid(P, Read(P, b, input))
    ensures Contents(P, Read(P, b, input)) == Contents(P, b) + input
  {
    if b.right <= |input| {
      var head, spill := input[..b.right], input[b.right..];
      AppendInPage(P, b, head);
      var full := Paged(ReplaceLast(b.pages, Fill(P, b.pages[|b.pages| - 1], b.right, head)),
                        b.left, 0, b.size + |head|);
      var page := spill + Zeros(P - |spill|);
      FlatOne([page]);
      AppendPages(P, full, [page], spill);
      assert Contents(P, b) + head + spill == Contents(P, b) + input;
    } else {
      AppendInPage(P, b, input);
    }
  }

  // ------------------------------------------------------------ write

  /** What `Buffer::write_to_fd` offers to the vectored write: at most two pages. */
  function Offer(P: PageSize, b: Paged): seq<byte>
    requires Valid(P, b)
  {
    if |b.pages| == 1 then
      FlatOne(b.pages);
      b.pages[0][b.left..P - b.right]
    else b.pages[0][b.left..] + b.pages[1][..P - b.right]
  }

  /** The offer is a prefix of the contents, and is empty only for an empty queue. */
  lemma OfferIsPrefix(P: PageSize, b: Paged)
    requires Valid(P, b)
    ensures |Offer(P, b)| <= b.size && Offer(P, b) == Contents(P, b)[..|Offer(P, b)|]
    ensures b.size > 0 ==> Offer(P, b) != []
  {
    var first := b.pages[0];
    if |b.pages| == 1 {
      FlatOne(b.pages);
    } else {
      assert b.pages[1..][1..] == b.pages[2..];
      var rest := Flat(b.pages[2..]);
      assert Flat(b.pages) == first + (b.pages[1] + rest);
      assert Contents(P, b) == first[b.left..] + (b.pages[1] + rest)[..P + |rest| - b.right];
    }
  }

  // ------------------------------------------------------------ page segments

  /** `Buffer::get_page_segment` of page `i`: the part of it that belongs to the contents. */
  /** The offer is everything on at most two pages, and else two pages less the bytes that are free on the last one. */
  lemma OfferLength(P: PageSize, b: Paged)
    requires Valid(P, b)
    ensures |Offer(P, b)| == if |b.pages| <= 2 then b.size else 2 * P - b.left - b.right
  {
    FlatLength(P, b.pages);
    if |b.pages| == 2 {
      assert |Flat(b.pages)| == 2 * P;
    }
  }

  function Segment(P: PageSize, b: Paged, i: nat): seq<byte>
    requires Valid(P, b) && i < |b.pages|
  {
    var lo := if i == 0 then b.left else 0;
    var hi := if i == |b.pages| - 1 then P - b.right else P;
    assert lo <= hi by {
      if |b.pages| == 1 {
        FlatOne(b.pages);
      }
    }
    b.pages[i][lo..hi]
  }

  function Segments(P: PageSize, b: Paged): seq<seq<byte>>
    requires Valid(P, b)
  {
    seq(|b.pages|, i requires 0 <= i < |b.pages| => Segment(P, b, i))
  }

  lemma SegmentsShape(P: PageSize, b: Paged)
    requires Valid(P, b) && |b.pages| >= 2
    ensures var n := |b.pages|;
      Segments(P, b) == [b.pages[0][b.left..]] + b.pages[1..n - 1] + [b.pages[n - 1][..P - b.right]]
  {
    var n := |b.pages|;
    var shape := [b.pages[0][b.left..]] + b.pages[1..n - 1] + [b.pages[n - 1][..P - b.right]];
    forall i | 0 <= i < n ensures Segments(P, b)[i] == shape[i] {
      assert Segments(P, b)[i] == Segment(P, b, i);
    }
  }

  lemma FlatEnds(first: seq<byte>, mid: seq<seq<byte>>, last: seq<byte>)
    ensures Flat([first] + mid + [last]) == first + (Flat(mid) + last)
  {
    FlatSnoc([first] + mid, last);
    assert ([first] + mid)[1..] == mid;
  }

  /** Walking the pages and taking their segments yields the contents, in order. */
  lemma SegmentsCover(P: PageSize, b: Paged)
    requires Valid(P, b)
    ensures Flat(Segments(P, b)) == Contents(P, b)
  {
    var n := |b.pages|;
    if n == 1 {
      FlatOne(b.pages);
      FlatOne(Segments(P, b));
    } else {
      var first, mid, last := b.pages[0], b.pages[1..n - 1], b.pages[n - 1];
      SegmentsShape(P, b);
      assert b.pages == [first] + mid + [last];
      FlatEnds(first[b.left..], mid, last[..P - b.right]);
      FlatEnds(first, mid, last);
    }
  }
}
