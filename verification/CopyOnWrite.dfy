/** Families of buffer handles that share stores: when each handle is a byte queue of its own. */
module CopyOnWrite {
  import opened Pages

  datatype Handle = Handle(store: nat, borrowed: bool, left: nat, right: nat, size: nat)

  datatype Family = Family(stores: map<nat, seq<seq<byte>>>, handles: map<nat, Handle>)

  datatype Mutation = Add(data: seq<byte>) | Drop(n: nat) | Receive(input: seq<byte>)

  /** `s` names the store that the operation allocates, if it allocates one. */
  datatype Op =
    | Create(h: nat, s: nat)
    | CopyOf(h: nat, from: nat)
    | Assign(h: nat, from: nat)
    | Destroy(h: nat)
    | Mutate(h: nat, m: Mutation, s: nat)

  ghost predicate Linked(f: Family) {
    forall h :: h in f.handles ==> f.handles[h].store in f.stores
  }

  function View(f: Family, h: nat): Paged
    requires h in f.handles && f.handles[h].store in f.stores
  {
    var x := f.handles[h];
    Paged(f.stores[x.store], x.left, x.right, x.size)
  }

  /** The handles that refer to store `s`; their number is the reference count. */
  function Users(f: Family, s: nat): set<nat> {
    set h | h in f.handles && f.handles[h].store == s
  }

  predicate NeedCopy(f: Family, h: nat)
    requires h in f.handles
  {
    f.handles[h].borrowed && |Users(f, f.handles[h].store)| > 1
  }

  ghost predicate Receivable(P: PageSize, b: Paged, m: Mutation) {
    m.Receive? ==> |m.input| <= b.right + P
  }

  function Mutated(P: PageSize, b: Paged, m: Mutation): Paged
    requires Valid(P, b) && Receivable(P, b, m)
  {
    match m
    case Add(data) => Append(P, b, data)
    case Drop(n) => Pop(P, b, n)
    case Receive(input) => Read(P, b, input)
  }

  /** Stores what a mutation made of handle `h`. */
  function Write(f: Family, h: nat, s: nat, borrowed: bool, v: Paged): Family {
    Family(f.stores[s := v.pages], f.handles[h := Handle(s, borrowed, v.left, v.right, v.size)])
  }

  ghost predicate Enabled(P: PageSize, f: Family, op: Op) {
    Linked(f) &&
    match op
    case Create(h, s) => h !in f.handles && s !in f.stores
    case CopyOf(h, from) => h !in f.handles && from in f.handles
    case Assign(h, from) => h in f.handles && from in f.handles
    case Destroy(h) => h in f.handles
    case Mutate(h, m, s) => h in f.handles && s !in f.stores && Valid(P, View(f, h)) && Receivable(P, View(f, h), m)
  }

  ghost function Apply(P: PageSize, f: Family, op: Op): Family
    requires Enabled(P, f, op)
  {
    match op
    case Create(h, s) => Write(f, h, s, false, Empty(P))
    case CopyOf(h, from) => f.(handles := f.handles[h := f.handles[from].(borrowed := true)])
    case Assign(h, from) => f.(handles := f.handles[h := f.handles[from].(borrowed := true)])
    case Destroy(h) => f.(handles := f.handles - {h})
    case Mutate(h, m, s) =>
      var v := Mutated(P, View(f, h), m);
      if NeedCopy(f, h) then Write(f, h, s, false, v)
      else Write(f, h, f.handles[h].store, f.handles[h].borrowed, v)
  }

  // ------------------------------------------------------------ the independent queues

  type Queues = map<nat, seq<byte>>

  /** The family as plain byte queues. */
  ghost function Abs(P: PageSize, f: Family): Queues
    requires Inv(P, f)
  {
    map h | h in f.handles :: Contents(P, View(f, h))
  }

  function QueueMutated(q: seq<byte>, m: Mutation): seq<byte> {
    match m
    case Add(data) => q + data
    case Drop(n) => if |q| < n then q else q[n..]
    case Receive(input) => q + input
  }

  ghost predicate QueueEnabled(q: Queues, op: Op) {
    match op
    case Create(h, _) => h !in q
    case CopyOf(h, from) => h !in q && from in q
    case Assign(h, from) => h in q && from in q
    case Destroy(h) => h in q
    case Mutate(h, _, _) => h in q
  }

  ghost function QueueApply(q: Queues, op: Op): Queues
    requires QueueEnabled(q, op)
  {
    match op
    case Create(h, _) => q[h := []]
    case CopyOf(h, from) => q[h := q[from]]
    case Assign(h, from) => q[h := q[from]]
    case Destroy(h) => q - {h}
    case Mutate(h, m, _) => q[h := QueueMutated(q[h], m)]
  }

  // ------------------------------------------------------------ one operation

  ghost predicate Owns(f: Family, h: nat) {
    h in f.handles && !f.handles[h].borrowed
  }

  /** Every handle is well formed, and a store has at most one handle that does not borrow it. */
  ghost predicate Inv(P: PageSize, f: Family) {
    && Linked(f)
    && (forall h :: h in f.handles ==> Valid(P, View(f, h)))
    && (forall g, h :: Owns(f, g) && Owns(f, h) && f.handles[g].store == f.handles[h].store ==> g == h)
  }

  /** Whether another handle refers to the store of `h`. */
  ghost predicate Shared(f: Family, h: nat)
    requires h in f.handles
  {
    exists g :: g in f.handles && g != h && f.handles[g].store == f.handles[h].store
  }

  lemma SharedIsCount(f: Family, h: nat)
    requires h in f.handles
    ensures Shared(f, h) <==> |Users(f, f.handles[h].store)| > 1
  {
    var users := Users(f, f.handles[h].store);
    assert h in users;
    if Shared(f, h) {
      var g :| g in f.handles && g != h && f.handles[g].store == f.handles[h].store;
      assert {g, h} <= users;
      SubsetSize({g, h}, users);
    } else {
      assert users == {h};
    }
  }

  /** A mutation moves its handle to a new store exactly when the handle borrows its store and another one uses it. After
      that it owns the new store; else it stays where it was, as an owner or a borrower. */
  lemma CopiesExactly(P: PageSize, f: Family, h: nat, m: Mutation, s: nat)
    requires Enabled(P, f, Mutate(h, m, s))
    ensures var f', moves := Apply(P, f, Mutate(h, m, s)), f.handles[h].borrowed && Shared(f, h);
      && h in f'.handles && f'.handles[h].store == (if moves then s else f.handles[h].store)
      && f'.handles[h].borrowed == (f.handles[h].borrowed && !moves)
      && (moves ==> f'.stores.Keys == f.stores.Keys + {s} && forall t :: t in f.stores ==> f'.stores[t] == f.stores[t])
      && (!moves ==> f'.stores.Keys == f.stores.Keys)
  {
    SharedIsCount(f, h);
  }

  lemma SubsetSize(a: set<nat>, b: set<nat>)
    requires a <= b
    ensures |a| <= |b|
  {
    assert b == a + (b - a);
  }

  /** The side condition: a handle that owns its store does not mutate it while others use it. */
  ghost predicate Safe(f: Family, op: Op) {
    op.Mutate? && op.h in f.handles && !f.handles[op.h].borrowed ==> !Shared(f, op.h)
  }

  lemma MutatedRefines(P: PageSize, b: Paged, m: Mutation)
    requires Valid(P, b) && Receivable(P, b, m)
    ensures Valid(P, Mutated(P, b, m))
    ensures Contents(P, Mutated(P, b, m)) == QueueMutated(Contents(P, b), m)
  {
    match m
    case Add(data) => AppendRefines(P, b, data);
    case Drop(n) => PopRefines(P, b, n);
    case Receive(input) => ReadRefines(P, b, input);
  }

  lemma EmptyRefines(P: PageSize)
    ensures Valid(P, Empty(P)) && Contents(P, Empty(P)) == []
  {
  }

  /** A safe operation changes the view of no other handle. */
  lemma OthersKeepTheirView(P: PageSize, f: Family, op: Op, g: nat)
    requires Inv(P, f) && Enabled(P, f, op) && Safe(f, op) && g in f.handles && g != op.h
    ensures var f' := Apply(P, f, op);
      && g in f'.handles && f'.handles[g] == f.handles[g]
      && f'.handles[g].store in f'.stores && View(f', g) == View(f, g)
  {
    if op.Mutate? {
      SharedIsCount(f, op.h);
    }
  }

  lemma StepInv(P: PageSize, f: Family, op: Op)
    requires Inv(P, f) && Enabled(P, f, op) && Safe(f, op)
    ensures Inv(P, Apply(P, f, op))
  {
    EmptyRefines(P);
    if op.Mutate? {
      MutatedRefines(P, View(f, op.h), op.m);
      SharedIsCount(f, op.h);
    }
    var f' := Apply(P, f, op);
    forall g | g in f'.handles ensures f'.handles[g].store in f'.stores && Valid(P, View(f', g)) {
      if g != op.h {
        OthersKeepTheirView(P, f, op, g);
      }
    }
  }

  /** The handle that an operation is about ends up with the queue it should have. */
  lemma ActorRefines(P: PageSize, f: Family, op: Op)
    requires Inv(P, f) && Enabled(P, f, op) && Inv(P, Apply(P, f, op)) && !op.Destroy?
    ensures QueueEnabled(Abs(P, f), op)
    ensures op.h in Apply(P, f, op).handles
    ensures Contents(P, View(Apply(P, f, op), op.h)) == QueueApply(Abs(P, f), op)[op.h]
  {
    if op.Mutate? {
      MutatedRefines(P, View(f, op.h), op.m);
    } else if op.Create? {
      EmptyRefines(P);
    }
  }

  lemma QueuesAgree(q: Queues, op: Op, q': Queues)
    requires QueueEnabled(q, op)
    requires q'.Keys == if op.Destroy? then q.Keys - {op.h} else q.Keys + {op.h}
    requires !op.Destroy? ==> q'[op.h] == QueueApply(q, op)[op.h]
    requires forall g :: g in q && g != op.h ==> q'[g] == q[g]
    ensures q' == QueueApply(q, op)
  {
  }

  lemma HandlesAfter(P: PageSize, f: Family, op: Op)
    requires Enabled(P, f, op)
    ensures Apply(P, f, op).handles.Keys == if op.Destroy? then f.handles.Keys - {op.h} else f.handles.Keys + {op.h}
  {
  }

  lemma StepRefines(P: PageSize, f: Family, op: Op)
    requires Inv(P, f) && Enabled(P, f, op) && Safe(f, op)
    ensures Inv(P, Apply(P, f, op)) && QueueEnabled(Abs(P, f), op)
    ensures Abs(P, Apply(P, f, op)) == QueueApply(Abs(P, f), op)
  {
    StepInv(P, f, op);
    if !op.Destroy? {
      ActorRefines(P, f, op);
    }
    var q, q' := Abs(P, f), Abs(P, Apply(P, f, op));
    HandlesAfter(P, f, op);
    assert q.Keys == f.handles.Keys && q'.Keys == Apply(P, f, op).handles.Keys;
    forall g | g in q && g != op.h ensures g in q' && q'[g] == q[g] {
      OthersKeepTheirView(P, f, op, g);
    }
    QueuesAgree(q, op, q');
  }

  // ------------------------------------------------------------ every run

  ghost predicate Runs(P: PageSize, f: Family, ops: seq<Op>)
    decreases |ops|
  {
    ops == [] || (Enabled(P, f, ops[0]) && Safe(f, ops[0]) && Runs(P, Apply(P, f, ops[0]), ops[1..]))
  }

  ghost function Final(P: PageSize, f: Family, ops: seq<Op>): Family
    requires Runs(P, f, ops)
    decreases |ops|
  {
    if ops == [] then f else Final(P, Apply(P, f, ops[0]), ops[1..])
  }

  ghost predicate QueueRuns(q: Queues, ops: seq<Op>)
    decreases |ops|
  {
    ops == [] || (QueueEnabled(q, ops[0]) && QueueRuns(QueueApply(q, ops[0]), ops[1..]))
  }

  ghost function QueueFinal(q: Queues, ops: seq<Op>): Queues
    requires QueueRuns(q, ops)
    decreases |ops|
  {
    if ops == [] then q else QueueFinal(QueueApply(q, ops[0]), ops[1..])
  }

  /** Over any run of safe operations, every handle behaves as a byte queue of its own. */
  lemma {:induction false} Isolation(P: PageSize, f: Family, ops: seq<Op>)
    requires Inv(P, f) && Runs(P, f, ops)
    ensures Inv(P, Final(P, f, ops)) && QueueRuns(Abs(P, f), ops)
    ensures Abs(P, Final(P, f, ops)) == QueueFinal(Abs(P, f), ops)
    decreases |ops|
  {
    if ops != [] {
      StepRefines(P, f, ops[0]);
      Isolation(P, Apply(P, f, ops[0]), ops[1..]);
    }
  }

  // ------------------------------------------------------------ unsafe mutations, exactly

  /** Handle `g` survives an operation: it is still well formed and holds the same bytes. */
  ghost predicate Survives(P: PageSize, f: Family, op: Op, g: nat)
    requires Inv(P, f) && Enabled(P, f, op) && g in f.handles
  {
    var f' := Apply(P, f, op);
    g in f'.handles && f'.handles[g].store in f'.stores && Valid(P, View(f', g))
    && Contents(P, View(f', g)) == Contents(P, View(f, g))
  }

  lemma ShorterPages(P: PageSize, pages: seq<seq<byte>>, drop: nat)
    requires AllFull(P, pages) && drop <= |pages|
    ensures |Flat(pages[drop..])| == |Flat(pages)| <==> drop == 0
  {
    FlatSplit(P, pages, drop);
    FlatLength(P, pages[..drop]);
    MulMono(1, drop, P);
  }

  /** An owner may pop while its store is shared exactly when no page is freed by it: the pop is
      refused, stays inside the first page, or there is only one page. */
  lemma OwnerPopKeepsCopiesExactly(P: PageSize, f: Family, h: nat, g: nat, n: nat, s: nat)
    requires Inv(P, f) && Enabled(P, f, Mutate(h, Drop(n), s))
    requires g in f.handles && g != h && f.handles[g].store == f.handles[h].store && !f.handles[h].borrowed
    ensures Survives(P, f, Mutate(h, Drop(n), s), g)
      <==> (n > f.handles[h].size || n + f.handles[h].left < P || |View(f, h).pages| == 1)
  {
    var b, c := View(f, h), View(f, g);
    assert View(Apply(P, f, Mutate(h, Drop(n), s)), g) == c.(pages := Pop(P, b, n).pages);
    if n <= b.size {
      PopFreesPages(P, b, n);
    }
  }

  /** A pop frees no page exactly when it stays inside the first page or there is only one. */
  lemma PopFreesPages(P: PageSize, b: Paged, n: nat)
    requires Valid(P, b) && n <= b.size
    ensures n + b.left < P || |b.pages| == 1 ==> Pop(P, b, n).pages == b.pages
    ensures |Flat(Pop(P, b, n).pages)| == |Flat(b.pages)| ==> n + b.left < P || |b.pages| == 1
  {
    PopArithmetic(P, b, n);
    var quot := PageOf(P, n + b.left);
    MulMono(1, quot, P);
    ShorterPages(P, b.pages, if quot < |b.pages| then quot else |b.pages| - 1);
  }

  /** Writing `data` over the bytes from `at` on is not seen between `l` and `r` exactly when the bytes there are the
      same. */
  lemma Overwrite(flat: seq<byte>, at: nat, data: seq<byte>, l: nat, r: nat)
    requires at + |data| <= |flat| && l <= r <= |flat|
    ensures (flat[..at] + data + flat[at + |data|..])[l..r] == flat[l..r]
      <==> forall i :: 0 <= i < |data| && l <= at + i < r ==> data[i] == flat[at + i]
  {
    var flat' := flat[..at] + data + flat[at + |data|..];
    if flat'[l..r] == flat[l..r] {
      forall i | 0 <= i < |data| && l <= at + i < r ensures data[i] == flat[at + i] {
        assert flat'[l..r][at + i - l] == flat[l..r][at + i - l];
      }
    } else {
      var k :| 0 <= k < r - l && flat'[l..r][k] != flat[l..r][k];
      assert 0 <= l + k - at < |data| && data[l + k - at] != flat[l + k];
    }
  }

  /** Filling free bytes of the last page, in the flattened pages. */
  lemma FillFlat(P: PageSize, b: Paged, data: seq<byte>)
    requires Valid(P, b) && |data| <= b.right
    ensures var flat, at := Flat(b.pages), b.left + b.size;
      Flat(ReplaceLast(b.pages, Fill(P, b.pages[|b.pages| - 1], b.right, data))) == flat[..at] + data + flat[at + |data|..]
  {
    var n := |b.pages| - 1;
    var front, last := b.pages[..n], b.pages[n];
    assert b.pages == front + [last];
    FlatSnoc(front, last);
    FlatSnoc(front, Fill(P, last, b.right, data));
    assert b.left + b.size == |Flat(front)| + (P - b.right);
    FillInside(Flat(front), last, P - b.right, data);
  }

  /** Overwriting inside `last`, seen from the whole. */
  lemma FillInside(front: seq<byte>, last: seq<byte>, k: nat, data: seq<byte>)
    requires k + |data| <= |last|
    ensures var flat, at := front + last, |front| + k;
      front + (last[..k] + data + last[k + |data|..]) == flat[..at] + data + flat[at + |data|..]
  {
    var flat, at := front + last, |front| + k;
    assert flat[..at] == front + last[..k];
    assert flat[at + |data|..] == last[k + |data|..];
  }

  /** The bytes that the owner writes behind its own are outside what the copy sees, or are there already. */
  ghost predicate Unseen(P: PageSize, b: Paged, c: Paged, data: seq<byte>)
    requires Valid(P, c)
  {
    forall i :: 0 <= i < |data| && c.left <= b.left + b.size + i < c.left + c.size
      ==> data[i] == Contents(P, c)[b.left + b.size + i - c.left]
  }

  lemma UnseenFlat(P: PageSize, b: Paged, c: Paged, data: seq<byte>)
    requires Valid(P, b) && Valid(P, c) && b.pages == c.pages && |data| <= b.right
    ensures var flat, at := Flat(b.pages), b.left + b.size;
      Unseen(P, b, c, data) <==> forall i :: 0 <= i < |data| && c.left <= at + i < c.left + c.size ==> data[i] == flat[at + i]
  {
    var flat, at := Flat(b.pages), b.left + b.size;
    forall i | 0 <= i < |data| && c.left <= at + i < c.left + c.size
      ensures data[i] == Contents(P, c)[at + i - c.left] <==> data[i] == flat[at + i]
    {
      assert Contents(P, c)[at + i - c.left] == flat[at + i];
    }
  }

  lemma FillKeepsExactly(P: PageSize, b: Paged, c: Paged, data: seq<byte>)
    requires Valid(P, b) && Valid(P, c) && b.pages == c.pages && |data| <= b.right
    ensures var c' := c.(pages := ReplaceLast(b.pages, Fill(P, b.pages[|b.pages| - 1], b.right, data)));
      Valid(P, c') && (Contents(P, c') == Contents(P, c) <==> Unseen(P, b, c, data))
  {
    var flat, at := Flat(b.pages), b.left + b.size;
    var pages := ReplaceLast(b.pages, Fill(P, b.pages[|b.pages| - 1], b.right, data));
    FillFlat(P, b, data);
    ViewAfter(P, c, pages, flat, Flat(pages));
    Overwrite(flat, at, data, c.left, c.left + c.size);
    UnseenFlat(P, b, c, data);
  }

  /** What a view sees of pages that have the same length as before. */
  lemma ViewAfter(P: PageSize, c: Paged, pages: seq<seq<byte>>, flat: seq<byte>, flat': seq<byte>)
    requires Valid(P, c) && |pages| >= 1 && AllFull(P, pages) && flat == Flat(c.pages) && flat' == Flat(pages) && |flat| == |flat'|
    ensures Valid(P, c.(pages := pages)) && Contents(P, c) == flat[c.left..c.left + c.size]
    ensures Contents(P, c.(pages := pages)) == flat'[c.left..c.left + c.size]
  {
  }

  /** An owner may append while its store is shared exactly when the data leaves a free byte in its last page and the
      copy does not see other bytes where it goes. */
  lemma OwnerAppendKeepsCopiesExactly(P: PageSize, f: Family, h: nat, g: nat, data: seq<byte>, s: nat)
    requires Inv(P, f) && Enabled(P, f, Mutate(h, Add(data), s))
    requires g in f.handles && g != h && f.handles[g].store == f.handles[h].store && !f.handles[h].borrowed
    ensures Survives(P, f, Mutate(h, Add(data), s), g) <==> |data| < f.handles[h].right && Unseen(P, View(f, h), View(f, g), data)
  {
    var b, c := View(f, h), View(f, g);
    var b' := Append(P, b, data);
    assert View(Apply(P, f, Mutate(h, Add(data), s)), g) == c.(pages := b'.pages);
    if |data| < b.right {
      FillKeepsExactly(P, b, c, data);
    } else {
      AppendRefines(P, b, data);
      assert |Flat(b'.pages)| == b'.left + b'.size + b'.right;
    }
  }

  /** The same for reading from a socket into a shared store. */
  lemma OwnerReadKeepsCopiesExactly(P: PageSize, f: Family, h: nat, g: nat, input: seq<byte>, s: nat)
    requires Inv(P, f) && Enabled(P, f, Mutate(h, Receive(input), s))
    requires g in f.handles && g != h && f.handles[g].store == f.handles[h].store && !f.handles[h].borrowed
    ensures Survives(P, f, Mutate(h, Receive(input), s), g)
      <==> |input| < f.handles[h].right && Unseen(P, View(f, h), View(f, g), input)
  {
    var b, c := View(f, h), View(f, g);
    var b' := Read(P, b, input);
    assert View(Apply(P, f, Mutate(h, Receive(input), s)), g) == c.(pages := b'.pages);
    if |input| < b.right {
      FillKeepsExactly(P, b, c, input);
    } else {
      ReadRefines(P, b, input);
      assert |Flat(b'.pages)| == b'.left + b'.size + b'.right;
    }
  }

  lemma Recycled(P: PageSize, d: seq<byte>, e: seq<byte>)
    requires |d| == |e| < P
    ensures Valid(P, Empty(P))
    ensures var b := Append(P, Empty(P), d);
      && Valid(P, b) && Contents(P, b) == d && b.size == |d|
      && var cleared := Pop(P, b, |d|);
      && Valid(P, cleared)
      && var reused := b.(pages := Append(P, cleared, e).pages);
      && Valid(P, reused) && Contents(P, reused) == e
  {
  }

  /** Handle 0 owns the only store, and handle 1 is a copy. */
  function OwnerAndCopy(own: Paged, copy: Paged): Family {
    Family(map[0 := own.pages],
           map[0 := Handle(0, false, own.left, own.right, own.size), 1 := Handle(0, true, copy.left, copy.right, copy.size)])
  }

  lemma OwnerMutates(P: PageSize, own: Paged, copy: Paged, m: Mutation)
    requires Valid(P, own) && Receivable(P, own, m)
    ensures var f := OwnerAndCopy(own, copy);
      && Enabled(P, f, Mutate(0, m, 1))
      && Apply(P, f, Mutate(0, m, 1)) == OwnerAndCopy(Mutated(P, own, m), copy)
  {
    var f, v := OwnerAndCopy(own, copy), Mutated(P, own, m);
    assert View(f, 0) == own;
    assert Write(f, 0, 0, false, v) == OwnerAndCopy(v, copy);
  }

  /** Create, append, copy. */
  lemma OwnerIsCopied(P: PageSize, d: seq<byte>)
    requires Valid(P, Empty(P))
    ensures var f0 := Apply(P, Family(map[], map[]), Create(0, 0));
      && Enabled(P, f0, Mutate(0, Add(d), 1))
      && var f1 := Apply(P, f0, Mutate(0, Add(d), 1));
      && Enabled(P, f1, CopyOf(1, 0))
      && Apply(P, f1, CopyOf(1, 0)) == OwnerAndCopy(Append(P, Empty(P), d), Append(P, Empty(P), d))
  {
    var f0 := Apply(P, Family(map[], map[]), Create(0, 0));
    assert View(f0, 0) == Empty(P);
    var b := Append(P, Empty(P), d);
    var f1 := Apply(P, f0, Mutate(0, Add(d), 1));
    assert f1 == Family(map[0 := b.pages], map[0 := Handle(0, false, b.left, b.right, b.size)]);
  }

  /** A parser that hands out a copy of its buffer, clears its own and goes on appending overwrites
      the bytes of the copy. */
  lemma RecycledOwnerOverwritesCopy(P: PageSize, d: seq<byte>, e: seq<byte>)
    requires |d| == |e| < P
    ensures var f0 := Apply(P, Family(map[], map[]), Create(0, 0));
      && Enabled(P, f0, Mutate(0, Add(d), 1))
      && var f1 := Apply(P, f0, Mutate(0, Add(d), 1));
      && Enabled(P, f1, CopyOf(1, 0))
      && var f2 := Apply(P, f1, CopyOf(1, 0));
      && 1 in f2.handles && Linked(f2) && Valid(P, View(f2, 1)) && Contents(P, View(f2, 1)) == d
      && Enabled(P, f2, Mutate(0, Drop(|d|), 1))
      && var f3 := Apply(P, f2, Mutate(0, Drop(|d|), 1));
      && Enabled(P, f3, Mutate(0, Add(e), 1))
      && var f4 := Apply(P, f3, Mutate(0, Add(e), 1));
      && 1 in f4.handles && Linked(f4) && Valid(P, View(f4, 1)) && Contents(P, View(f4, 1)) == e
  {
    Recycled(P, d, e);
    OwnerIsCopied(P, d);
    var b := Append(P, Empty(P), d);
    OwnerMutates(P, b, b, Drop(|d|));
    var cleared := Pop(P, b, |d|);
    OwnerMutates(P, cleared, b, Add(e));
    CopyView(b, b);
    CopyView(Append(P, cleared, e), b);
  }

  lemma CopyView(own: Paged, copy: Paged)
    ensures Linked(OwnerAndCopy(own, copy)) && View(OwnerAndCopy(own, copy), 1) == copy.(pages := own.pages)
  {
  }
}
