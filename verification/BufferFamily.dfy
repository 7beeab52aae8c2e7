/** Buffer objects and their shared stores go through the states of the handle families of `CopyOnWrite`. */
module BufferFamily {
  import opened Basics
  import opened Pages
  import opened BufferClass
  import opened CopyOnWrite

  ghost predicate Distinct<T>(objects: map<nat, T>) {
    forall g, h :: g in objects && h in objects && g != h ==> objects[g] != objects[h]
  }

  ghost predicate IsHandle(P: PageSize, b: Buffer, x: Handle, cows: map<nat, CowInfo>)
    reads b
  {
    && b.P == P && x.store in cows && b.cow == cows[x.store]
    && b.borrowed == x.borrowed && b.left == x.left && b.right == x.right && b.size == x.size
  }

  ghost predicate IsStore(cow: CowInfo, pages: seq<seq<byte>>, count: int)
    reads cow
  {
    cow.pages == pages && cow.useCount == count
  }

  /** Buffer `h` is `bufs[h]` and store `s` is `cows[s]`, each of them once. */
  ghost predicate Objects(P: PageSize, f: Family, counts: map<nat, int>, bufs: map<nat, Buffer>, cows: map<nat, CowInfo>)
    reads bufs.Values, cows.Values
  {
    && bufs.Keys == f.handles.Keys && cows.Keys == f.stores.Keys && counts.Keys == f.stores.Keys
    && Distinct(bufs) && Distinct(cows)
    && (forall h :: h in bufs ==> IsHandle(P, bufs[h], f.handles[h], cows))
    && (forall s :: s in cows ==> IsStore(cows[s], f.stores[s], counts[s]))
  }

  /** The use count of a store is the number of handles that refer to it. */
  ghost predicate Counted(f: Family, counts: map<nat, int>) {
    Linked(f) && counts.Keys == f.stores.Keys && forall s :: s in counts ==> counts[s] == |Users(f, s)|
  }

  // ------------------------------------------------------------ counting users

  lemma SwapOne(u: set<nat>, u': set<nat>, h: nat)
    requires u - {h} == u' - {h}
    ensures |u'| == |u| - (if h in u then 1 else 0) + (if h in u' then 1 else 0)
  {
    var others := u - {h};
    assert u == if h in u then others + {h} else others;
    assert u' == if h in u' then others + {h} else others;
  }

  /** Only handle `h` has changed. */
  ghost predicate OnlyChanged(f: Family, f': Family, h: nat) {
    forall g :: g != h ==> (g in f'.handles <==> g in f.handles) && (g in f.handles ==> f'.handles[g] == f.handles[g])
  }

  lemma UsersAfter(f: Family, f': Family, h: nat, t: nat)
    requires OnlyChanged(f, f', h)
    ensures |Users(f', t)| == |Users(f, t)| - (if h in Users(f, t) then 1 else 0) + (if h in Users(f', t) then 1 else 0)
  {
    var u, u' := Users(f, t), Users(f', t);
    forall g | g != h ensures g in u <==> g in u' {
    }
    assert u - {h} == u' - {h};
    SwapOne(u, u', h);
  }

  function StoreOf(f: Family, h: nat): Option<nat> {
    if h in f.handles then Some(f.handles[h].store) else None
  }

  lemma CountsFollow(f: Family, f': Family, h: nat, counts: map<nat, int>, t: nat)
    requires Counted(f, counts) && OnlyChanged(f, f', h) && t in counts
    ensures |Users(f', t)| == counts[t] - (if StoreOf(f, h) == Some(t) then 1 else 0) + (if StoreOf(f', h) == Some(t) then 1 else 0)
  {
    UsersAfter(f, f', h, t);
  }

  /** A store that is new has no users but handle `h`. */
  lemma NewStoreCount(f: Family, f': Family, h: nat, s: nat)
    requires Linked(f) && s !in f.stores && OnlyChanged(f, f', h) && StoreOf(f', h) == Some(s)
    ensures |Users(f', s)| == 1
  {
    assert Users(f', s) == {h};
  }

  /** The use counts after an operation. */
  ghost function Recounted(f: Family, op: Op, counts: map<nat, int>): map<nat, int>
    requires Counted(f, counts) && (op.Create? || op.CopyOf? || op.h in f.handles) && (op.CopyOf? || op.Assign? ==> op.from in f.handles)
  {
    match op
    case Create(_, s) => counts[s := 1]
    case CopyOf(_, from) => Plus(counts, f.handles[from].store, 1)
    case Assign(h, from) => Plus(Plus(counts, f.handles[from].store, 1), f.handles[h].store, -1)
    case Destroy(h) => Plus(counts, f.handles[h].store, -1)
    case Mutate(h, _, s) => if NeedCopy(f, h) then Plus(counts, f.handles[h].store, -1)[s := 1] else counts
  }

  function Plus(counts: map<nat, int>, s: nat, n: int): map<nat, int>
    requires s in counts
  {
    counts[s := counts[s] + n]
  }

  lemma ApplyChangesOne(P: PageSize, f: Family, op: Op)
    requires CopyOnWrite.Enabled(P, f, op)
    ensures var f' := CopyOnWrite.Apply(P, f, op);
      && OnlyChanged(f, f', op.h) && Linked(f')
      && f'.stores.Keys == f.stores.Keys + (if op.Create? || (op.Mutate? && NeedCopy(f, op.h)) then {op.s} else {})
      && StoreOf(f', op.h) == match op
           case Create(_, s) => Some(s)
           case CopyOf(_, from) => StoreOf(f, from)
           case Assign(_, from) => StoreOf(f, from)
           case Destroy(_) => None
           case Mutate(h, _, s) => if NeedCopy(f, h) then Some(s) else StoreOf(f, h)
  {
  }

  /** A store that was there before. */
  lemma RecountedOld(P: PageSize, f: Family, op: Op, counts: map<nat, int>, f': Family, t: nat)
    requires Counted(f, counts) && CopyOnWrite.Enabled(P, f, op) && t in counts && f' == CopyOnWrite.Apply(P, f, op)
    ensures var counts' := Recounted(f, op, counts);
      && t in counts'
      && counts'[t] == counts[t] - (if StoreOf(f, op.h) == Some(t) then 1 else 0) + (if StoreOf(f', op.h) == Some(t) then 1 else 0)
  {
  }

  lemma RecountedNew(P: PageSize, f: Family, op: Op, counts: map<nat, int>, t: nat)
    requires Counted(f, counts) && CopyOnWrite.Enabled(P, f, op) && t !in counts && t in Recounted(f, op, counts)
    ensures Recounted(f, op, counts)[t] == 1 && StoreOf(CopyOnWrite.Apply(P, f, op), op.h) == Some(t)
  {
  }

  lemma RecountedAt(P: PageSize, f: Family, op: Op, counts: map<nat, int>, f': Family, counts': map<nat, int>, t: nat)
    requires Counted(f, counts) && CopyOnWrite.Enabled(P, f, op)
    requires f' == CopyOnWrite.Apply(P, f, op) && counts' == Recounted(f, op, counts) && t in counts'
    ensures counts'[t] == |Users(f', t)|
  {
    ApplyChangesOne(P, f, op);
    if t in counts {
      RecountedOld(P, f, op, counts, f', t);
      CountsFollow(f, f', op.h, counts, t);
    } else {
      RecountedNew(P, f, op, counts, t);
      NewStoreCount(f, f', op.h, t);
    }
  }

  lemma RecountedKeys(P: PageSize, f: Family, op: Op, counts: map<nat, int>)
    requires Counted(f, counts) && CopyOnWrite.Enabled(P, f, op)
    ensures Recounted(f, op, counts).Keys == CopyOnWrite.Apply(P, f, op).stores.Keys
  {
    ApplyChangesOne(P, f, op);
  }

  /** An operation keeps every use count equal to the number of users. */
  lemma RecountedIsCounted(P: PageSize, f: Family, op: Op, counts: map<nat, int>, f': Family, counts': map<nat, int>)
    requires Counted(f, counts) && CopyOnWrite.Enabled(P, f, op)
    requires f' == CopyOnWrite.Apply(P, f, op) && counts' == Recounted(f, op, counts)
    ensures Counted(f', counts')
  {
    ApplyChangesOne(P, f, op);
    RecountedKeys(P, f, op, counts);
    forall t | t in counts' ensures counts'[t] == |Users(f', t)| {
      RecountedAt(P, f, op, counts, f', counts', t);
    }
  }

  lemma NewDistinct<T>(objects: map<nat, T>, k: nat, x: T)
    requires Distinct(objects) && x !in objects.Values
    ensures Distinct(objects[k := x])
  {
    forall g | g in objects ensures objects[g] != x {
      assert objects[g] in objects.Values;
    }
  }

  lemma OneAdded<T>(objects: map<nat, T>, k: nat, x: T)
    ensures objects[k := x].Values - objects.Values <= {x}
  {
  }

  // ------------------------------------------------------------ the operations on objects

  /** All buffers but `h` and all stores but `x` and `y` are as the family says. */
  ghost predicate Rest(P: PageSize, f: Family, counts: map<nat, int>, bufs: map<nat, Buffer>, cows: map<nat, CowInfo>, h: nat, x: nat, y: nat)
    reads bufs.Values, cows.Values
  {
    && bufs.Keys == f.handles.Keys && cows.Keys == f.stores.Keys && counts.Keys == f.stores.Keys
    && Distinct(bufs) && Distinct(cows)
    && (forall g :: g in bufs && g != h ==> IsHandle(P, bufs[g], f.handles[g], cows))
    && (forall s :: s in cows && s != x && s != y ==> IsStore(cows[s], f.stores[s], counts[s]))
  }

  /** Handle `h` and two stores have changed. */
  lemma Rebuilt(P: PageSize, f: Family, counts: map<nat, int>, bufs: map<nat, Buffer>, cows: map<nat, CowInfo>, h: nat, x: nat, y: nat,
                f': Family, counts': map<nat, int>)
    requires h in bufs && x in cows && y in cows && Rest(P, f, counts, bufs, cows, h, x, y)
    requires f'.handles.Keys == f.handles.Keys && f'.stores.Keys == f.stores.Keys && counts'.Keys == counts.Keys
    requires forall g :: g in f.handles && g != h ==> f'.handles[g] == f.handles[g]
    requires forall s :: s in f.stores && s != x && s != y ==> f'.stores[s] == f.stores[s] && counts'[s] == counts[s]
    requires IsHandle(P, bufs[h], f'.handles[h], cows) && IsStore(cows[x], f'.stores[x], counts'[x]) && IsStore(cows[y], f'.stores[y], counts'[y])
    ensures Objects(P, f', counts', bufs, cows)
  {
  }

  /** A store is new, and handle `h` does not count. */
  lemma StoreAdded(P: PageSize, f: Family, counts: map<nat, int>, bufs: map<nat, Buffer>, cows: map<nat, CowInfo>, h: nat, st: nat,
                   s: nat, cow: CowInfo, pages: seq<seq<byte>>, n: int)
    requires Rest(P, f, counts, bufs, cows, h, st, st) && s !in f.stores && cow !in cows.Values && st in cows
    ensures Rest(P, f.(stores := f.stores[s := pages]), counts[s := n], bufs, cows[s := cow], h, st, s)
  {
    NewDistinct(cows, s, cow);
  }

  /** A buffer is new, and so is its store. */
  lemma BothAdded(P: PageSize, f: Family, counts: map<nat, int>, bufs: map<nat, Buffer>, cows: map<nat, CowInfo>, h: nat, b: Buffer, s: nat, v: Paged)
    requires Objects(P, f, counts, bufs, cows) && h !in f.handles && s !in f.stores && b !in bufs.Values && b.cow !in cows.Values
    requires b.P == P && !b.borrowed && b.View() == v && b.cow.useCount == 1
    ensures Objects(P, Write(f, h, s, false, v), counts[s := 1], bufs[h := b], cows[s := b.cow])
  {
    NewDistinct(bufs, h, b);
    NewDistinct(cows, s, b.cow);
  }

  method CreateOne(P: PageSize, ghost f: Family, ghost counts: map<nat, int>, bufs: map<nat, Buffer>, ghost cows: map<nat, CowInfo>,
                   h: nat, ghost s: nat)
    returns (bufs': map<nat, Buffer>, ghost cows': map<nat, CowInfo>)
    requires Objects(P, f, counts, bufs, cows) && h !in f.handles && s !in f.stores
    ensures Objects(P, Write(f, h, s, false, Empty(P)), counts[s := 1], bufs', cows')
    ensures fresh(bufs'.Values - bufs.Values) && fresh(cows'.Values - cows.Values)
  {
    var b := new Buffer(P);
    bufs', cows' := bufs[h := b], cows[s := b.cow];
    BothAdded(P, f, counts, bufs, cows, h, b, s, Empty(P));
    OneAdded(bufs, h, b);
    OneAdded(cows, s, b.cow);
  }

  method CopyOne(P: PageSize, ghost f: Family, ghost counts: map<nat, int>, bufs: map<nat, Buffer>, ghost cows: map<nat, CowInfo>,
                 h: nat, from: nat, ghost st: nat)
    returns (bufs': map<nat, Buffer>)
    requires Objects(P, f, counts, bufs, cows) && h !in f.handles && from in f.handles && st == f.handles[from].store
    requires st in counts && counts[st] >= 1 && Valid(P, View(f, from))
    modifies bufs[from].cow
    ensures Objects(P, f.(handles := f.handles[h := f.handles[from].(borrowed := true)]), Plus(counts, st, 1), bufs', cows)
    ensures fresh(bufs'.Values - bufs.Values)
  {
    assert bufs[from].View() == View(f, from);
    var b := new Buffer.Copy(bufs[from]);
    bufs' := bufs[h := b];
    NewDistinct(bufs, h, b);
    OneAdded(bufs, h, b);
  }

  method DestroyOne(P: PageSize, ghost f: Family, ghost counts: map<nat, int>, bufs: map<nat, Buffer>, ghost cows: map<nat, CowInfo>,
                    h: nat, ghost st: nat)
    returns (bufs': map<nat, Buffer>)
    requires Objects(P, f, counts, bufs, cows) && h in f.handles && st == f.handles[h].store && st in counts && counts[st] >= 1
    modifies bufs[h].cow
    ensures Objects(P, f.(handles := f.handles - {h}), Plus(counts, st, -1), bufs', cows)
    ensures fresh(bufs'.Values - bufs.Values)
  {
    bufs[h].Release();
    bufs' := bufs - {h};
  }

  /** Handle `h` has become `z`, and one reference has moved from store `x` to store `y`. */
  lemma Reassigned(P: PageSize, f: Family, counts: map<nat, int>, bufs: map<nat, Buffer>, cows: map<nat, CowInfo>, h: nat, z: Handle, x: nat, y: nat)
    requires h in bufs && x in cows && y in cows && Rest(P, f, counts, bufs, cows, h, x, y) && IsHandle(P, bufs[h], z, cows)
    requires IsStore(cows[x], f.stores[x], if x == y then counts[x] else counts[x] - 1)
    requires IsStore(cows[y], f.stores[y], if x == y then counts[y] else counts[y] + 1)
    ensures Objects(P, f.(handles := f.handles[h := z]), Plus(Plus(counts, y, 1), x, -1), bufs, cows)
  {
    Rebuilt(P, f, counts, bufs, cows, h, x, y, f.(handles := f.handles[h := z]), Plus(Plus(counts, y, 1), x, -1));
  }

  method AssignOne(P: PageSize, ghost f: Family, ghost counts: map<nat, int>, bufs: map<nat, Buffer>, ghost cows: map<nat, CowInfo>,
                   h: nat, from: nat, ghost x: nat, ghost y: nat)
    requires Objects(P, f, counts, bufs, cows) && h in f.handles && from in f.handles && x == f.handles[h].store && y == f.handles[from].store
    requires x in counts && y in counts && counts[x] >= 1 && counts[y] >= 1 && Valid(P, View(f, h)) && Valid(P, View(f, from))
    modifies bufs[h], bufs[h].cow, bufs[from].cow
    ensures Objects(P, f.(handles := f.handles[h := f.handles[from].(borrowed := true)]), Plus(Plus(counts, y, 1), x, -1), bufs, cows)
  {
    assert bufs[from].View() == View(f, from) && bufs[h].View() == View(f, h);
    assert IsStore(cows[x], f.stores[x], counts[x]) && IsStore(cows[y], f.stores[y], counts[y]);
    bufs[h].Assign(bufs[from]);
    Reassigned(P, f, counts, bufs, cows, h, f.handles[from].(borrowed := true), x, y);
  }

  /** The mutations of a buffer. */
  method Mutated(b: Buffer, m: Mutation)
    requires b.Ok() && Receivable(b.P, b.View(), m)
    modifies b, b.cow
    ensures b.Ok() && b.View() == CopyOnWrite.Mutated(b.P, old(b.View()), m)
    ensures b.StoreRule(old(b.cow), old(b.NeedCopyForWrite()))
  {
    match m {
      case Add(data) => var _ := b.Append(data);
      case Drop(n) => var _ := b.Pop(n);
      case Receive(input) => var _ := b.ReadFromFd(Some(input));
    }
  }

  /** Handle `h` has left store `st` for a new one. */
  lemma Moved(P: PageSize, f: Family, counts: map<nat, int>, bufs: map<nat, Buffer>, cows: map<nat, CowInfo>, h: nat, st: nat, s: nat, v: Paged)
    requires h in bufs && st in cows && s !in f.stores && Rest(P, f, counts, bufs, cows, h, st, st) && bufs[h].cow !in cows.Values
    requires bufs[h].P == P && !bufs[h].borrowed && bufs[h].View() == v && bufs[h].cow.useCount == 1
    requires IsStore(cows[st], f.stores[st], counts[st] - 1)
    ensures Objects(P, Write(f, h, s, false, v), Plus(counts, st, -1)[s := 1], bufs, cows[s := bufs[h].cow])
  {
    StoreAdded(P, f, counts, bufs, cows, h, st, s, bufs[h].cow, v.pages, 1);
    Rebuilt(P, f.(stores := f.stores[s := v.pages]), counts[s := 1], bufs, cows[s := bufs[h].cow], h, st, s,
            Write(f, h, s, false, v), Plus(counts, st, -1)[s := 1]);
  }

  /** A buffer that borrows a shared store moves to a store of its own. */
  method MutateBorrowed(P: PageSize, ghost f: Family, ghost counts: map<nat, int>, bufs: map<nat, Buffer>, ghost cows: map<nat, CowInfo>,
                        h: nat, m: Mutation, ghost st: nat, ghost s: nat, ghost v: Paged)
    returns (ghost cows': map<nat, CowInfo>)
    requires Objects(P, f, counts, bufs, cows) && h in f.handles && st == f.handles[h].store && st in counts && s !in f.stores
    requires f.handles[h].borrowed && counts[st] > 1 && Valid(P, View(f, h)) && Receivable(P, View(f, h), m)
    requires v == CopyOnWrite.Mutated(P, View(f, h), m)
    modifies bufs[h], bufs[h].cow
    ensures Objects(P, Write(f, h, s, false, v), Plus(counts, st, -1)[s := 1], bufs, cows')
    ensures fresh(cows'.Values - cows.Values)
  {
    assert bufs[h].View() == View(f, h);
    Mutated(bufs[h], m);
    cows' := cows[s := bufs[h].cow];
    OneAdded(cows, s, bufs[h].cow);
    assert Rest(P, f, counts, bufs, cows, h, st, st);
    Moved(P, f, counts, bufs, cows, h, st, s, v);
  }

  /** Handle `h` has changed its store. */
  lemma Stayed(P: PageSize, f: Family, counts: map<nat, int>, bufs: map<nat, Buffer>, cows: map<nat, CowInfo>, h: nat, st: nat, borrowed: bool, v: Paged)
    requires h in bufs && st in cows && Rest(P, f, counts, bufs, cows, h, st, st) && bufs[h].cow == cows[st]
    requires bufs[h].P == P && bufs[h].borrowed == borrowed && bufs[h].View() == v && bufs[h].cow.useCount == counts[st]
    ensures Objects(P, Write(f, h, st, borrowed, v), counts, bufs, cows)
  {
    Rebuilt(P, f, counts, bufs, cows, h, st, st, Write(f, h, st, borrowed, v), counts);
  }

  /** Any other buffer changes its store in place. */
  method MutateInPlace(P: PageSize, ghost f: Family, ghost counts: map<nat, int>, bufs: map<nat, Buffer>, ghost cows: map<nat, CowInfo>,
                       h: nat, m: Mutation, ghost st: nat, ghost v: Paged)
    requires Objects(P, f, counts, bufs, cows) && h in f.handles && st == f.handles[h].store && st in counts && counts[st] >= 1
    requires !(f.handles[h].borrowed && counts[st] > 1) && Valid(P, View(f, h)) && Receivable(P, View(f, h), m)
    requires v == CopyOnWrite.Mutated(P, View(f, h), m)
    modifies bufs[h], bufs[h].cow
    ensures Objects(P, Write(f, h, st, f.handles[h].borrowed, v), counts, bufs, cows)
  {
    assert bufs[h].View() == View(f, h);
    Mutated(bufs[h], m);
    assert Rest(P, f, counts, bufs, cows, h, st, st);
    Stayed(P, f, counts, bufs, cows, h, st, f.handles[h].borrowed, v);
  }

  // ------------------------------------------------------------ every run

  /** The store of a handle has a user. */
  lemma StoreInUse(f: Family, counts: map<nat, int>, h: nat)
    requires Counted(f, counts) && h in f.handles
    ensures f.handles[h].store in counts && counts[f.handles[h].store] >= 1
    ensures NeedCopy(f, h) <==> f.handles[h].borrowed && counts[f.handles[h].store] > 1
  {
    assert h in Users(f, f.handles[h].store);
  }

  /** One operation on objects is the operation on their family, use counts included. */
  method Perform(P: PageSize, ghost f: Family, ghost counts: map<nat, int>, bufs: map<nat, Buffer>, ghost cows: map<nat, CowInfo>, op: Op)
    returns (bufs': map<nat, Buffer>, ghost cows': map<nat, CowInfo>)
    requires CopyOnWrite.Inv(P, f) && Counted(f, counts) && Objects(P, f, counts, bufs, cows) && CopyOnWrite.Enabled(P, f, op)
    modifies bufs.Values, cows.Values
    ensures Objects(P, CopyOnWrite.Apply(P, f, op), Recounted(f, op, counts), bufs', cows')
    ensures fresh(bufs'.Values - bufs.Values) && fresh(cows'.Values - cows.Values)
  {
    bufs', cows' := bufs, cows;
    if op.h in bufs {
      StoreInUse(f, counts, op.h);
    }
    match op {
      case Create(h, s) =>
        bufs', cows' := CreateOne(P, f, counts, bufs, cows, h, s);
      case CopyOf(h, from) =>
        StoreInUse(f, counts, from);
        bufs' := CopyOne(P, f, counts, bufs, cows, h, from, f.handles[from].store);
      case Assign(h, from) =>
        StoreInUse(f, counts, from);
        AssignOne(P, f, counts, bufs, cows, h, from, f.handles[h].store, f.handles[from].store);
      case Destroy(h) =>
        bufs' := DestroyOne(P, f, counts, bufs, cows, h, f.handles[h].store);
      case Mutate(h, m, s) =>
        cows' := MutateOne(P, f, counts, bufs, cows, h, m, s);
    }
  }

  method MutateOne(P: PageSize, ghost f: Family, ghost counts: map<nat, int>, bufs: map<nat, Buffer>, ghost cows: map<nat, CowInfo>,
                   h: nat, m: Mutation, ghost s: nat)
    returns (ghost cows': map<nat, CowInfo>)
    requires Counted(f, counts) && Objects(P, f, counts, bufs, cows) && CopyOnWrite.Enabled(P, f, Mutate(h, m, s))
    modifies bufs[h], bufs[h].cow
    ensures Objects(P, CopyOnWrite.Apply(P, f, Mutate(h, m, s)), Recounted(f, Mutate(h, m, s), counts), bufs, cows')
    ensures fresh(cows'.Values - cows.Values)
  {
    ghost var st, v := f.handles[h].store, CopyOnWrite.Mutated(P, View(f, h), m);
    StoreInUse(f, counts, h);
    assert IsHandle(P, bufs[h], f.handles[h], cows) && IsStore(cows[st], f.stores[st], counts[st]);
    if bufs[h].NeedCopyForWrite() {
      cows' := MutateBorrowed(P, f, counts, bufs, cows, h, m, st, s, v);
    } else {
      MutateInPlace(P, f, counts, bufs, cows, h, m, st, v);
      cows' := cows;
    }
  }

  /** A run on objects is the run of their family. */
  method PerformAll(P: PageSize, ghost f: Family, ghost counts: map<nat, int>, bufs: map<nat, Buffer>, ghost cows: map<nat, CowInfo>, ops: seq<Op>)
    returns (bufs': map<nat, Buffer>, ghost counts': map<nat, int>, ghost cows': map<nat, CowInfo>)
    requires CopyOnWrite.Inv(P, f) && Counted(f, counts) && Objects(P, f, counts, bufs, cows) && CopyOnWrite.Runs(P, f, ops)
    modifies bufs.Values, cows.Values
    ensures Counted(CopyOnWrite.Final(P, f, ops), counts') && Objects(P, CopyOnWrite.Final(P, f, ops), counts', bufs', cows')
    decreases |ops|
  {
    if ops == [] {
      return bufs, counts, cows;
    }
    ghost var f1, counts1 := CopyOnWrite.Apply(P, f, ops[0]), Recounted(f, ops[0], counts);
    RecountedIsCounted(P, f, ops[0], counts, f1, counts1);
    CopyOnWrite.StepInv(P, f, ops[0]);
    var bufs1, cows1 := Perform(P, f, counts, bufs, cows, ops[0]);
    bufs', counts', cows' := PerformAll(P, f1, counts1, bufs1, cows1, ops[1..]);
  }

  /** Buffer `b` is intact and holds the bytes `data`. */
  ghost predicate Holds(P: PageSize, b: Buffer, data: seq<byte>)
    reads b, b.cow
  {
    b.P == P && b.Ok() && Contents(P, b.View()) == data
  }

  ghost predicate AllHold(P: PageSize, bufs: map<nat, Buffer>, q: Queues)
    reads bufs.Values, set b | b in bufs.Values :: b.cow
  {
    bufs.Keys == q.Keys && forall h :: h in bufs ==> Holds(P, bufs[h], q[h])
  }

  lemma ObjectHolds(P: PageSize, f: Family, counts: map<nat, int>, bufs: map<nat, Buffer>, cows: map<nat, CowInfo>, h: nat)
    requires CopyOnWrite.Inv(P, f) && Counted(f, counts) && Objects(P, f, counts, bufs, cows) && h in bufs
    ensures h in f.handles && Holds(P, bufs[h], Contents(P, View(f, h)))
  {
    StoreInUse(f, counts, h);
    assert bufs[h].View() == View(f, h);
  }

  lemma ObjectsHold(P: PageSize, f: Family, counts: map<nat, int>, bufs: map<nat, Buffer>, cows: map<nat, CowInfo>, q: Queues)
    requires CopyOnWrite.Inv(P, f) && Counted(f, counts) && Objects(P, f, counts, bufs, cows)
    requires q == Abs(P, f)
    ensures AllHold(P, bufs, q)
  {
    assert q.Keys == f.handles.Keys;
    forall h | h in bufs ensures Holds(P, bufs[h], q[h]) {
      ObjectHolds(P, f, counts, bufs, cows, h);
    }
  }

  /** Over any run of safe operations, each buffer object holds what a byte queue of its own would. */
  method ObjectsAreIsolated(P: PageSize, ghost f: Family, ghost counts: map<nat, int>, bufs: map<nat, Buffer>, ghost cows: map<nat, CowInfo>, ops: seq<Op>)
    returns (bufs': map<nat, Buffer>)
    requires CopyOnWrite.Inv(P, f) && Counted(f, counts) && Objects(P, f, counts, bufs, cows) && CopyOnWrite.Runs(P, f, ops)
    modifies bufs.Values, cows.Values
    ensures QueueRuns(Abs(P, f), ops) && AllHold(P, bufs', QueueFinal(Abs(P, f), ops))
  {
    Isolation(P, f, ops);
    ghost var counts', cows';
    bufs', counts', cows' := PerformAll(P, f, counts, bufs, cows, ops);
    ObjectsHold(P, CopyOnWrite.Final(P, f, ops), counts', bufs', cows', QueueFinal(Abs(P, f), ops));
  }
}
