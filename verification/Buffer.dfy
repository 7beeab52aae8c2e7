/** `Buffer`: a handle on a reference-counted store of pages that is copied on write. */
module BufferClass {
  import opened Basics
  import opened Pages

  /** The page loop of `append`: pushes new pages that hold `data`; `free` bytes stay free in the last. */
  method PushPages(P: PageSize, pages: seq<seq<byte>>, data: seq<byte>) returns (r: seq<seq<byte>>, free: nat)
    ensures r == pages + FreshPages(P, data) && free == FreeAfter(P, |data|)
  {
    r := pages;
    var rest := data;
    while |rest| >= P
      invariant r + FreshPages(P, rest) == pages + FreshPages(P, data)
      invariant FreeAfter(P, |rest|) == FreeAfter(P, |data|)
      decreases |rest|
    {
      assert r + ([rest[..P]] + FreshPages(P, rest[P..])) == (r + [rest[..P]]) + FreshPages(P, rest[P..]);
      r := r + [rest[..P]];
      rest := rest[P..];
    }
    r := r + [rest + Zeros(P - |rest|)];
    free := P - |rest|;
  }

  /** The page loop of `pop`: frees pages from the front but never the last one. */
  method DropPages(pages: seq<seq<byte>>, npage: nat) returns (r: seq<seq<byte>>)
    requires |pages| >= 1
    ensures r == pages[if npage < |pages| then npage else |pages| - 1..]
  {
    r := pages;
    for i := 0 to npage
      invariant r == pages[if i < |pages| then i else |pages| - 1..]
    {
      if |r| > 1 {
        r := r[1..];
      }
    }
  }

  /** The page loop of `copy_front`, over a queue that holds at least `n` bytes. */
  method CopyPages(P: PageSize, b: Paged, n: nat) returns (out: seq<byte>)
    requires Valid(P, b) && n <= b.size
    ensures out == Contents(P, b)[..n]
  {
    ghost var all := Contents(P, b);
    var ncopy := if n < P - b.left then n else P - b.left;
    out := b.pages[0][b.left..b.left + ncopy];
    var sz: nat, it: nat := n - ncopy, 1;
    forall i | 0 <= i < ncopy ensures out[i] == all[i] {
      PageByte(P, b, 0, i);
    }
    while sz > 0
      invariant 1 <= it <= |b.pages| && |out| + sz == n && |out| <= |all| && out == all[..|out|]
      invariant sz > 0 ==> b.left + |out| == it * P
      decreases sz
    {
      MulMono(|b.pages|, it, P);
      FlatLength(P, b.pages);
      ncopy := if sz < P then sz else P;
      forall i | 0 <= i < ncopy ensures b.pages[it][i] == all[|out| + i] {
        PageByte(P, b, it, |out| + i);
      }
      out := out + b.pages[it][..ncopy];
      sz := sz - ncopy;
      it := it + 1;
    }
  }

  /** Byte `k` of the contents lies in page `it`. */
  lemma PageByte(P: PageSize, b: Paged, it: nat, k: nat)
    requires Valid(P, b) && it < |b.pages| && k < b.size && it * P <= b.left + k < it * P + P
    ensures Contents(P, b)[k] == b.pages[it][b.left + k - it * P]
  {
    FlatSplit(P, b.pages, it);
    assert Flat(b.pages[it..]) == b.pages[it] + Flat(b.pages[it..][1..]);
    assert Flat(b.pages)[b.left + k] == Flat(b.pages)[it * P..][b.left + k - it * P];
  }

  /** A vectored read scatters `input` over the free bytes of the last page and the spare page; the spare page joins
      the queue once the last page is full. */
  method Receive(P: PageSize, b: Paged, input: seq<byte>) returns (pages: seq<seq<byte>>, free: nat)
    requires Valid(P, b) && |input| <= b.right + P
    ensures Paged(pages, b.left, free, b.size + |input|) == Read(P, b, input)
  {
    var n := Min(|input|, b.right);
    var spare := input[n..] + Zeros(P - (|input| - n));
    pages := b.pages[|b.pages| - 1 := Fill(P, b.pages[|b.pages| - 1], b.right, input[..n])];
    if b.right <= |input| {
      pages := pages + [spare];
      free := P + b.right - |input|;
    } else {
      free := b.right - |input|;
      assert input[..n] == input;
    }
  }

  /** The vector that `write_to_fd` builds: the first two pages, without the skipped bytes in front,
      and with its last entry shortened by `right`. */
  method Gather(P: PageSize, b: Paged) returns (vec: seq<seq<byte>>)
    requires Valid(P, b)
    ensures Flat(vec) == Offer(P, b)
  {
    var nvec := if 2 < |b.pages| then 2 else |b.pages|;
    vec := [];
    for i := 0 to nvec
      invariant |vec| == i && forall j :: 0 <= j < i ==> vec[j] == if j == 0 then b.pages[0][b.left..] else b.pages[j]
    {
      vec := vec + [if i == 0 then b.pages[0][b.left..] else b.pages[i]];
    }
    if |b.pages| == 1 {
      FlatOne(b.pages);
    }
    var last := vec[nvec - 1];
    vec := vec[nvec - 1 := last[..|last| - b.right]];
    if nvec == 1 {
      FlatOne(vec);
    } else {
      FlatConcat([vec[0]], [vec[1]]);
      FlatOne([vec[0]]);
      FlatOne([vec[1]]);
      assert vec == [vec[0]] + [vec[1]];
    }
  }

  /** The store that handles share. */
  class CowInfo {
    var pages: seq<seq<byte>>
    var extra: bool               // whether the spare page for vectored reads is allocated
    var useCount: nat             // handles that refer to this store

    constructor (pages: seq<seq<byte>>)
      ensures this.pages == pages && !extra && useCount == 1
    {
      this.pages, extra, useCount := pages, false, 1;
    }
  }

  class Buffer {
    const P: PageSize
    var cow: CowInfo
    var borrowed: bool
    var left: nat
    var right: nat
    var size: nat

    ghost function View(): Paged
      reads this, cow
    {
      Paged(cow.pages, left, right, size)
    }

    ghost predicate Ok()
      reads this, cow
    {
      cow.useCount >= 1 && Valid(P, View())
    }

    /** A new buffer owns a store of one free page. */
    constructor (pageSize: PageSize)
      ensures P == pageSize && Ok() && fresh(cow) && View() == Empty(pageSize)
      ensures !borrowed && cow.useCount == 1
    {
      P := pageSize;
      cow := new CowInfo([Zeros(pageSize)]);
      borrowed := false;
      left, right, size := 0, pageSize, 0;
      FlatOne([Zeros(pageSize)]);
    }

    /** A copy shares the store of the original and is marked as borrowing it. */
    constructor Copy(rhs: Buffer)
      requires rhs.Ok()
      modifies rhs.cow`useCount
      ensures P == rhs.P && cow == rhs.cow && borrowed && Ok() && View() == old(rhs.View())
      ensures cow.useCount == old(rhs.cow.useCount) + 1
    {
      P := rhs.P;
      cow := rhs.cow;
      borrowed := true;
      left, right, size := rhs.left, rhs.right, rhs.size;
      new;
      cow.useCount := cow.useCount + 1;
    }

    /** Assignment drops this handle's store and borrows the one of `rhs`. */
    method Assign(rhs: Buffer)
      requires Ok() && rhs.Ok() && P == rhs.P
      modifies this, cow`useCount, rhs.cow`useCount
      ensures cow == old(rhs.cow) && borrowed && View() == old(rhs.View())
      ensures old(cow) != cow ==> cow.useCount == old(rhs.cow.useCount) + 1 && old(cow).useCount == old(cow.useCount) - 1
      ensures old(cow) == cow ==> cow.useCount == old(cow.useCount)
    {
      left, right, size := rhs.left, rhs.right, rhs.size;
      rhs.cow.useCount := rhs.cow.useCount + 1;
      cow.useCount := cow.useCount - 1;
      cow := rhs.cow;
      borrowed := true;
    }

    /** The destructor gives the reference to the store back. */
    method Release()
      requires cow.useCount >= 1
      modifies cow`useCount
      ensures cow.useCount == old(cow.useCount) - 1
    {
      cow.useCount := cow.useCount - 1;
    }

    predicate NeedCopyForWrite()
      reads this, cow
    {
      borrowed && cow.useCount > 1
    }

    /** Moves this handle to a store of its own with the same bytes; the shared one is not touched. */
    method CopyForWrite()
      requires Ok() && cow.useCount > 1
      modifies this`cow, this`borrowed, cow`useCount
      ensures Ok() && View() == old(View()) && !borrowed && fresh(cow) && cow.useCount == 1
      ensures old(cow).useCount == old(cow.useCount) - 1
    {
      cow.useCount := cow.useCount - 1;
      cow := new CowInfo(cow.pages);
      borrowed := false;
    }

    /** What every mutation promises about the store: a handle that had to copy leaves the shared
        store alone, any other handle keeps and changes its own. */
    twostate predicate StoreRule(was: CowInfo, copied: bool)
      reads this, cow, was
    {
      if copied
      then fresh(cow) && !borrowed && cow.useCount == 1 && was.pages == old(was.pages) && was.useCount == old(was.useCount) - 1
      else cow == was && borrowed == old(borrowed) && cow.useCount == old(cow.useCount)
    }

    /** `Buffer::append`. Always accepts the data. */
    method Append(data: seq<byte>) returns (ok: bool)
      requires Ok()
      modifies this, cow
      ensures ok && Ok() && View() == Pages.Append(P, old(View()), data)
      ensures StoreRule(old(cow), old(NeedCopyForWrite()))
    {
      AppendRefines(P, View(), data);
      if NeedCopyForWrite() {
        CopyForWrite();
      }
      size := size + |data|;
      var last := cow.pages[|cow.pages| - 1];
      if |data| < right {
        cow.pages := ReplaceLast(cow.pages, Fill(P, last, right, data));
        right := right - |data|;
      } else {
        var pages, free := PushPages(P, ReplaceLast(cow.pages, Fill(P, last, right, data[..right])), data[right..]);
        cow.pages := pages;
        right := free;
      }
      return true;
    }

    /** `Buffer::pop`: refuses to drop more bytes than there are. */
    method Pop(n: nat) returns (ok: bool)
      requires Ok()
      modifies this, cow
      ensures ok == (n <= old(size)) && Ok() && View() == Pages.Pop(P, old(View()), n)
      ensures StoreRule(old(cow), old(NeedCopyForWrite()))
    {
      PopRefines(P, View(), n);
      if NeedCopyForWrite() {
        CopyForWrite();
      }
      if size < n {
        return false;
      }
      var npage := PageOf(P, n + left);
      left := OffsetOf(P, n + left);
      var pages := DropPages(cow.pages, npage);
      cow.pages := pages;
      size := size - n;
      if size == 0 {
        left, right := 0, P;
      }
      return true;
    }

    method Clear()
      requires Ok()
      modifies this, cow
      ensures Ok() && Contents(P, View()) == []
      ensures StoreRule(old(cow), old(NeedCopyForWrite()))
    {
      PopRefines(P, View(), size);
      var _ := Pop(size);
    }

    /** `Buffer::copy_front`: copies the first `n` bytes, page by page, and leaves the queue alone. */
    method CopyFront(n: nat) returns (ok: bool, out: seq<byte>)
      requires Ok()
      ensures ok == (n <= size)
      ensures ok ==> out == Contents(P, View())[..n]
    {
      if size < n {
        return false, [];
      }
      ok := true;
      out := CopyPages(P, Paged(cow.pages, left, right, size), n);
    }

    /** `Buffer::read_from_fd`: `input` is what the vectored read delivered, at most the free bytes of
        the last page and one spare page; None is a read error. */
    method ReadFromFd(input: Option<seq<byte>>) returns (nread: int)
      requires Ok() && (input.Some? ==> |input.value| <= right + P)
      modifies this, cow
      ensures Ok() && StoreRule(old(cow), old(NeedCopyForWrite()))
      ensures if input.None? then nread == -1 && View() == old(View())
              else nread == |input.value| && View() == Pages.Read(P, old(View()), input.value)
    {
      if input.Some? {
        ReadRefines(P, View(), input.value);
      }
      if NeedCopyForWrite() {
        CopyForWrite();
      }
      cow.extra := true;
      if input.None? {
        return -1;
      }
      nread := |input.value|;
      var pages, free := Receive(P, Paged(cow.pages, left, right, size), input.value);
      cow.pages := pages;
      right := free;
      size := size + nread;
    }

    /** `Buffer::write_to_fd`: `accept` is the result of the vectored write, at most what it was
        offered; `wire` is what it sent. */
    method WriteToFd(accept: int) returns (nwrite: int, wire: seq<byte>)
      requires Ok() && accept <= |Offer(P, View())|
      modifies this, cow
      ensures Ok() && StoreRule(old(cow), old(NeedCopyForWrite()))
      ensures nwrite == if old(size) == 0 then 0 else accept
      ensures wire == if nwrite > 0 then Offer(P, old(View()))[..nwrite] else []
      ensures View() == if nwrite > 0 then Pages.Pop(P, old(View()), nwrite) else old(View())
    {
      if NeedCopyForWrite() {
        CopyForWrite();
      }
      if size == 0 {
        return 0, [];
      }
      OfferIsPrefix(P, View());
      var vec := Gather(P, Paged(cow.pages, left, right, size));
      nwrite, wire := accept, [];
      if nwrite > 0 {
        wire := Flat(vec)[..nwrite];
        var _ := Pop(nwrite);
      }
    }
  }
}
