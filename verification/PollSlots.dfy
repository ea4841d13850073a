/** How detail::poll_reactor stores the interests: a dense vector of poll slots,
    cross-indexed from the map of fd entries, with swap-with-last removal. */
module PollSlots {
  import opened Wrappers
  import opened Interests

  /** No key: the wake-up pipe. */
  datatype PollEntry = PollEntry(watched: int, events: bv16, key: Option<Key>, gen: nat)

  /** fd -1 and no index while inactive. */
  datatype Ctx = Ctx(fd: int, cb: Option<Cb>, active: bool, index: Option<nat>, gen: nat)

  datatype FdEntry = FdEntry(read: Ctx, write: Ctx) {
    function Get(kind: Kind): Ctx {
      if kind.Read? then read else write
    }

    function With(kind: Kind, ctx: Ctx): FdEntry {
      if kind.Read? then this.(read := ctx) else this.(write := ctx)
    }
  }

  const NO_CTX: Ctx := Ctx(-1, None, false, None, 0)
  const NO_ENTRY: FdEntry := FdEntry(NO_CTX, NO_CTX)

  type Entries = map<nat, FdEntry>

  function EntryOf(fds: Entries, fd: nat): FdEntry {
    if fd in fds then fds[fd] else NO_ENTRY
  }

  function CtxOf(fds: Entries, k: Key): Ctx {
    EntryOf(fds, k.fd).Get(k.kind)
  }

  function SetCtx(fds: Entries, k: Key, ctx: Ctx): Entries {
    fds[k.fd := EntryOf(fds, k.fd).With(k.kind, ctx)]
  }

  lemma SetCtxGets(fds: Entries, k: Key, ctx: Ctx)
    ensures forall l {:trigger CtxOf(SetCtx(fds, k, ctx), l)} ::
              CtxOf(SetCtx(fds, k, ctx), l) == if l == k then ctx else CtxOf(fds, l)
  {
  }

  /** The slot of an active interest. */
  predicate Backs(e: PollEntry, c: Ctx, k: Key, r: Reg) {
    e == PollEntry(c.fd, r.events, Some(k), r.gen) && c.gen == r.gen && c.cb == r.cb
  }

  /** Slot 0 is the wake-up pipe, and the other slots are in one-to-one correspondence with
      the active interests: same owner, kind, generation and events, and each interest
      stores the index of its own slot. */
  ghost predicate Bijection(poll: seq<PollEntry>, fds: Entries, regs: map<Key, Reg>) {
    && |poll| >= 1 && poll[0].key == None
    && (forall k :: k in regs <==> CtxOf(fds, k).active)
    && (forall i :: 1 <= i < |poll| ==>
          poll[i].key.Some? && poll[i].key.value in regs && CtxOf(fds, poll[i].key.value).index == Some(i))
    && (forall k :: k in regs ==>
          var c := CtxOf(fds, k);
          c.index.Some? && 1 <= c.index.value < |poll| && Backs(poll[c.index.value], c, k, regs[k]))
  }

  /** What an interest's slot watches: the fd itself for reading, its duplicate for writing. */
  function Descriptor(t: Table, k: Key): int {
    if k.kind.Read? then k.fd else if k.fd in t.dups then t.dups[k.fd] else -1
  }

  /** An active context holds its descriptor, an inactive one neither descriptor nor index. */
  ghost predicate Watched(fds: Entries, t: Table) {
    forall k ::
      if k in t.regs then CtxOf(fds, k).fd == Descriptor(t, k) && Descriptor(t, k) != -1
      else CtxOf(fds, k).fd == -1 && CtxOf(fds, k).index == None
  }

  ghost predicate Coupled(poll: seq<PollEntry>, fds: Entries, t: Table) {
    Bijection(poll, fds, t.regs) && Watched(fds, t) && fds.Keys == t.known
  }

  /** poll watches `watched` for `events` on behalf of k. */
  ghost predicate Polls(poll: seq<PollEntry>, k: Key, watched: int, events: bv16) {
    exists i :: 1 <= i < |poll| && poll[i].key == Some(k) && poll[i].watched == watched && poll[i].events == events
  }

  /** Every registered interest is polled for what it asks, and no other is. */
  lemma PolledForWhatItAsks(poll: seq<PollEntry>, fds: Entries, t: Table, k: Key)
    requires Coupled(poll, fds, t)
    ensures k in t.regs ==> Polls(poll, k, Descriptor(t, k), t.regs[k].events)
    ensures k !in t.regs ==> forall i :: 0 <= i < |poll| ==> poll[i].key != Some(k)
  {
    if k in t.regs {
      var i := CtxOf(fds, k).index.value;
      assert poll[i].key == Some(k);
    }
  }

  // ---- The vector operations ---------------------------------------------------------

  function SwapRemoved(poll: seq<PollEntry>, i: nat): seq<PollEntry>
    requires i < |poll|
  {
    var last := |poll| - 1;
    if i == last then poll[..last] else poll[i := poll[last]][..last]
  }

  /** The interest whose slot was moved into i stores its new index. */
  function Reindexed(poll: seq<PollEntry>, fds: Entries, i: nat): Entries
    requires i < |poll|
  {
    var moved := poll[|poll| - 1].key;
    if i == |poll| - 1 || moved == None || moved.value.fd !in fds then fds
    else SetCtx(fds, moved.value, CtxOf(fds, moved.value).(index := Some(i)))
  }

  /** The context of a removed interest: the callback is retired, the generation stays. */
  function Reset(c: Ctx): Ctx {
    c.(fd := -1, cb := None, active := false, index := None)
  }

  function Detached(poll: seq<PollEntry>, fds: Entries, k: Key, i: nat): Entries
    requires i < |poll|
  {
    var fds' := Reindexed(poll, fds, i);
    SetCtx(fds', k, Reset(CtxOf(fds', k)))
  }

  /** Swap-removal changes the removed context and the index of the moved one. */
  lemma DetachedGets(poll: seq<PollEntry>, fds: Entries, regs: map<Key, Reg>, k: Key, i: nat)
    requires Bijection(poll, fds, regs) && k in regs && CtxOf(fds, k).index == Some(i)
    ensures forall l {:trigger CtxOf(Detached(poll, fds, k, i), l)} ::
              CtxOf(Detached(poll, fds, k, i), l)
              == if l == k then Reset(CtxOf(fds, k))
                 else if Some(l) == poll[|poll| - 1].key then CtxOf(fds, l).(index := Some(i))
                 else CtxOf(fds, l)
  {
    var m := poll[|poll| - 1].key.value;
    assert m in regs && m.fd in fds;
    SetCtxGets(fds, m, CtxOf(fds, m).(index := Some(i)));
    SetCtxGets(Reindexed(poll, fds, i), k, Reset(CtxOf(Reindexed(poll, fds, i), k)));
  }

  /** Every remaining interest finds its slot: the one that was last at i, the others where
      they were. */
  lemma SwapRemoveBacks(poll: seq<PollEntry>, fds: Entries, regs: map<Key, Reg>, k: Key, i: nat, l: Key)
    requires Bijection(poll, fds, regs) && k in regs && CtxOf(fds, k).index == Some(i) && l in regs && l != k
    ensures var c := CtxOf(Detached(poll, fds, k, i), l);
            && c.active && c.index.Some? && 1 <= c.index.value < |SwapRemoved(poll, i)|
            && Backs(SwapRemoved(poll, i)[c.index.value], c, l, regs[l])
  {
    DetachedGets(poll, fds, regs, k, i);
    assert CtxOf(fds, l).index != Some(i);
    assert Some(l) != poll[|poll| - 1].key ==> CtxOf(fds, l).index != Some(|poll| - 1);
  }

  /** Every remaining slot belongs to a remaining interest, which stores its index. */
  lemma SwapRemoveOwns(poll: seq<PollEntry>, fds: Entries, regs: map<Key, Reg>, k: Key, i: nat, j: nat)
    requires Bijection(poll, fds, regs) && k in regs && CtxOf(fds, k).index == Some(i)
    requires 1 <= j < |SwapRemoved(poll, i)|
    ensures var owner := SwapRemoved(poll, i)[j].key;
            && owner.Some? && owner.value in regs && owner.value != k
            && CtxOf(Detached(poll, fds, k, i), owner.value).index == Some(j)
  {
    DetachedGets(poll, fds, regs, k, i);
    var from := if j == i then |poll| - 1 else j;
    assert SwapRemoved(poll, i)[j] == poll[from];
    assert CtxOf(fds, poll[from].key.value).index == Some(from);
  }

  /** Swap-removal keeps the correspondence, also when the moved slot is the same fd's other
      interest. */
  lemma SwapRemoveKeeps(poll: seq<PollEntry>, fds: Entries, regs: map<Key, Reg>, k: Key, i: nat)
    requires Bijection(poll, fds, regs) && k in regs && CtxOf(fds, k).index == Some(i)
    ensures Bijection(SwapRemoved(poll, i), Detached(poll, fds, k, i), regs - {k})
  {
    var poll', fds', regs' := SwapRemoved(poll, i), Detached(poll, fds, k, i), regs - {k};
    forall l | l in regs'
      ensures var c := CtxOf(fds', l);
              c.active && c.index.Some? && 1 <= c.index.value < |poll'| && Backs(poll'[c.index.value], c, l, regs'[l])
    {
      SwapRemoveBacks(poll, fds, regs, k, i, l);
    }
    forall j | 1 <= j < |poll'|
      ensures poll'[j].key.Some? && poll'[j].key.value in regs' && CtxOf(fds', poll'[j].key.value).index == Some(j)
    {
      SwapRemoveOwns(poll, fds, regs, k, i, j);
    }
    forall l | l !in regs' ensures !CtxOf(fds', l).active {
      DetachedGets(poll, fds, regs, k, i);
    }
  }

  /** Changing the events of an interest and of its slot keeps the correspondence. */
  lemma SetSlotKeeps(poll: seq<PollEntry>, fds: Entries, regs: map<Key, Reg>, k: Key, events: bv16, cb: Option<Cb>)
    requires Bijection(poll, fds, regs) && k in regs
    ensures var c := CtxOf(fds, k);
            Bijection(poll[c.index.value := poll[c.index.value].(events := events)],
                      SetCtx(fds, k, c.(cb := cb)), regs[k := regs[k].(events := events, cb := cb)])
  {
    var c := CtxOf(fds, k);
    SetCtxGets(fds, k, c.(cb := cb));
  }

  /** A new interest gets a new last slot. */
  lemma AppendSlotKeeps(poll: seq<PollEntry>, fds: Entries, regs: map<Key, Reg>, k: Key,
                        watched: int, events: bv16, cb: Option<Cb>, gen: nat)
    requires Bijection(poll, fds, regs) && k !in regs
    ensures Bijection(poll + [PollEntry(watched, events, Some(k), gen)],
                      SetCtx(fds, k, Ctx(watched, cb, true, Some(|poll|), gen)), regs[k := Reg(gen, events, cb)])
  {
    SetCtxGets(fds, k, Ctx(watched, cb, true, Some(|poll|), gen));
  }

  /** The polled snapshot of a coupled table holds every registration once. */
  function ItemOf(e: PollEntry): Item {
    Item(e.key, e.gen, e.events)
  }

  function Items(poll: seq<PollEntry>): (items: seq<Item>)
    ensures |items| == |poll|
    ensures forall i :: 0 <= i < |poll| ==> items[i] == ItemOf(poll[i])
  {
    seq(|poll|, i requires 0 <= i < |poll| => ItemOf(poll[i]))
  }

  lemma ItemsAreSnapshot(poll: seq<PollEntry>, fds: Entries, t: Table)
    requires Bijection(poll, fds, t.regs)
    ensures SnapshotOf(t, Items(poll))
  {
    var items := Items(poll);
    forall k | k in t.regs ensures exists i :: 1 <= i < |items| && items[i].key == Some(k) {
      assert items[CtxOf(fds, k).index.value].key == Some(k);
    }
    forall i, j | 1 <= i < j < |items| ensures items[i].key != items[j].key {
      assert CtxOf(fds, poll[i].key.value).index == Some(i);
      assert CtxOf(fds, poll[j].key.value).index == Some(j);
    }
  }

  // ---- The operations keep slots and interests coupled ---------------------------------

  lemma RegisterAgainCoupled(poll: seq<PollEntry>, fds: Entries, t: Table, k: Key, events: bv16, cb: Option<Cb>)
    requires Coupled(poll, fds, t) && k in t.regs
    ensures var c := CtxOf(fds, k);
            Coupled(poll[c.index.value := poll[c.index.value].(events := events)],
                    SetCtx(fds, k, c.(cb := cb)), Register(t, k, events, cb))
  {
    var c := CtxOf(fds, k);
    SetSlotKeeps(poll, fds, t.regs, k, events, cb);
    SetCtxGets(fds, k, c.(cb := cb));
    assert Register(t, k, events, cb).regs == t.regs[k := t.regs[k].(events := events, cb := cb)];
  }

  /** The descriptor a write interest holds is open. */
  lemma DuplicateIsOpen(poll: seq<PollEntry>, fds: Entries, t: Table, k: Key)
    requires Coupled(poll, fds, t) && DupsInv(t) && k in t.regs
    ensures k.kind.Write? ==> CtxOf(fds, k).fd in t.open
  {
    if k.kind.Write? {
      assert k == Key(k.fd, Write) && k.fd in t.dups;
    }
  }

  /** The vector and the entries after add_read or add_write. */
  function EnrolledPoll(poll: seq<PollEntry>, fds: Entries, gen: nat, k: Key, watched: int, events: bv16)
    : seq<PollEntry>
  {
    var c := CtxOf(fds, k);
    if c.index.None? then poll + [PollEntry(watched, events, Some(k), gen + 1)]
    else if c.index.value < |poll| then
      poll[c.index.value := poll[c.index.value].(watched := watched, events := events)]
    else poll
  }

  function EnrolledFds(poll: seq<PollEntry>, fds: Entries, gen: nat, k: Key, watched: int, cb: Option<Cb>): Entries {
    var c := CtxOf(fds, k);
    SetCtx(fds, k, if c.index.None? then Ctx(watched, cb, true, Some(|poll|), gen + 1)
                   else c.(fd := watched, cb := cb, active := true))
  }

  /** Adding an active interest again only changes its events and callback. */
  lemma EnrolledAgain(poll: seq<PollEntry>, fds: Entries, gen: nat, k: Key, events: bv16, cb: Option<Cb>)
    requires var c := CtxOf(fds, k);
             c.active && c.index.Some? && c.index.value < |poll| && poll[c.index.value].watched == c.fd
    ensures var c := CtxOf(fds, k);
            && EnrolledPoll(poll, fds, gen, k, c.fd, events)
               == poll[c.index.value := poll[c.index.value].(events := events)]
            && EnrolledFds(poll, fds, gen, k, c.fd, cb) == SetCtx(fds, k, c.(cb := cb))
  {
  }

  /** Adding an interest for the first time gives it a new last slot. */
  lemma EnrolledNew(poll: seq<PollEntry>, fds: Entries, gen: nat, k: Key, watched: int, events: bv16, cb: Option<Cb>)
    requires CtxOf(fds, k).index.None?
    ensures EnrolledPoll(poll, fds, gen, k, watched, events) == poll + [PollEntry(watched, events, Some(k), gen + 1)]
    ensures EnrolledFds(poll, fds, gen, k, watched, cb)
            == SetCtx(fds, k, Ctx(watched, cb, true, Some(|poll|), gen + 1))
  {
  }

  ghost predicate EnrollKeeps(poll: seq<PollEntry>, fds: Entries, t: Table, k: Key, events: bv16, cb: Option<Cb>) {
    Coupled(EnrolledPoll(poll, fds, t.gen, k, Descriptor(t, k), events),
            EnrolledFds(poll, fds, t.gen, k, Descriptor(t, k), cb), Register(t, k, events, cb))
  }

  lemma EnrollAgainCoupled(poll: seq<PollEntry>, fds: Entries, t: Table, k: Key, events: bv16, cb: Option<Cb>)
    requires Coupled(poll, fds, t) && k in t.regs
    ensures EnrollKeeps(poll, fds, t, k, events, cb)
  {
    assert CtxOf(fds, k).fd == Descriptor(t, k);
    EnrolledAgain(poll, fds, t.gen, k, events, cb);
    RegisterAgainCoupled(poll, fds, t, k, events, cb);
  }

  lemma EnrollNewCoupled(poll: seq<PollEntry>, fds: Entries, t: Table, k: Key, events: bv16, cb: Option<Cb>)
    requires Coupled(poll, fds, t) && k !in t.regs && Descriptor(t, k) != -1
    ensures EnrollKeeps(poll, fds, t, k, events, cb)
  {
    EnrolledNew(poll, fds, t.gen, k, Descriptor(t, k), events, cb);
    RegisterNewCoupled(poll, fds, t, k, events, cb);
  }

  lemma EnrollCoupled(poll: seq<PollEntry>, fds: Entries, t: Table, k: Key, events: bv16, cb: Option<Cb>)
    requires Coupled(poll, fds, t) && Descriptor(t, k) != -1
    ensures EnrollKeeps(poll, fds, t, k, events, cb)
  {
    if k in t.regs {
      EnrollAgainCoupled(poll, fds, t, k, events, cb);
    } else {
      EnrollNewCoupled(poll, fds, t, k, events, cb);
    }
  }

  /** A failed dup leaves an entry without an active interest. */
  lemma StrayCoupled(poll: seq<PollEntry>, fds: Entries, t: Table, fd: nat)
    requires Coupled(poll, fds, t)
    ensures forall strays :: Coupled(poll, fds[fd := EntryOf(fds, fd)], t.(known := t.known + {fd}, strays := strays))
  {
    var fds' := fds[fd := EntryOf(fds, fd)];
    assert forall k :: CtxOf(fds', k) == CtxOf(fds, k);
    assert fds'.Keys == t.known + {fd};
  }

  /** A new duplicate concerns no active interest yet. */
  lemma DuplicateCoupled(poll: seq<PollEntry>, fds: Entries, t: Table, fd: nat, d: nat)
    requires Coupled(poll, fds, t) && Key(fd, Write) !in t.regs
    ensures Coupled(poll, fds, t.(dups := t.dups[fd := d], open := t.open + {d}))
  {
    var t' := t.(dups := t.dups[fd := d], open := t.open + {d});
    forall k | k in t.regs ensures Descriptor(t', k) == Descriptor(t, k) {
      if k.kind.Write? { assert k == Key(k.fd, Write); }
    }
  }

  lemma RegisterNewWatched(fds: Entries, t: Table, k: Key, events: bv16, cb: Option<Cb>, c: Ctx)
    requires Watched(fds, t) && k !in t.regs && c.fd == Descriptor(t, k) && Descriptor(t, k) != -1
    ensures Watched(SetCtx(fds, k, c), Register(t, k, events, cb))
  {
    SetCtxGets(fds, k, c);
  }

  lemma RegisterNewCoupled(poll: seq<PollEntry>, fds: Entries, t: Table, k: Key, events: bv16, cb: Option<Cb>)
    requires Coupled(poll, fds, t) && k !in t.regs && Descriptor(t, k) != -1
    ensures Coupled(poll + [PollEntry(Descriptor(t, k), events, Some(k), t.gen + 1)],
                    SetCtx(fds, k, Ctx(Descriptor(t, k), cb, true, Some(|poll|), t.gen + 1)),
                    Register(t, k, events, cb))
  {
    var t' := Register(t, k, events, cb);
    var c := Ctx(Descriptor(t, k), cb, true, Some(|poll|), t.gen + 1);
    assert t'.regs == t.regs[k := Reg(t.gen + 1, events, cb)];
    assert SetCtx(fds, k, c).Keys == t'.known;
    assert Watched(SetCtx(fds, k, c), t') by { RegisterNewWatched(fds, t, k, events, cb, c); }
    AppendSlotKeeps(poll, fds, t.regs, k, Descriptor(t, k), events, cb, t.gen + 1);
  }

  lemma DropWatched(fds: Entries, fds': Entries, t: Table, k: Key)
    requires Watched(fds, t) && k in t.regs && CtxOf(fds', k) == Reset(CtxOf(fds, k))
    requires forall l :: l != k ==> CtxOf(fds', l).fd == CtxOf(fds, l).fd
                                    && (l !in t.regs ==> CtxOf(fds', l).index == CtxOf(fds, l).index)
    ensures Watched(fds', Drop(t, k))
  {
    forall l ensures l != k ==> Descriptor(Drop(t, k), l) == Descriptor(t, l) {}
  }

  lemma DetachedWatched(poll: seq<PollEntry>, fds: Entries, t: Table, k: Key, i: nat)
    requires Coupled(poll, fds, t) && k in t.regs && CtxOf(fds, k).index == Some(i)
    ensures i < |poll| && Watched(Detached(poll, fds, k, i), Drop(t, k))
  {
    DetachedGets(poll, fds, t.regs, k, i);
    DropWatched(fds, Detached(poll, fds, k, i), t, k);
  }

  lemma DetachedKeys(poll: seq<PollEntry>, fds: Entries, regs: map<Key, Reg>, k: Key, i: nat)
    requires Bijection(poll, fds, regs) && k in regs && k.fd in fds && CtxOf(fds, k).index == Some(i)
    ensures Detached(poll, fds, k, i).Keys == fds.Keys
  {
  }

  lemma DropCoupled(poll: seq<PollEntry>, fds: Entries, t: Table, k: Key, i: nat)
    requires Coupled(poll, fds, t) && k in t.regs && CtxOf(fds, k).index == Some(i)
    ensures i < |poll| && Coupled(SwapRemoved(poll, i), Detached(poll, fds, k, i), Drop(t, k))
  {
    SwapRemoveKeeps(poll, fds, t.regs, k, i);
    DetachedKeys(poll, fds, t.regs, k, i);
    DetachedWatched(poll, fds, t, k, i);
  }

  lemma SetEventsCoupled(poll: seq<PollEntry>, fds: Entries, t: Table, k: Key, events: bv16)
    requires Coupled(poll, fds, t) && k in t.regs
    ensures var i := CtxOf(fds, k).index.value;
            Coupled(poll[i := poll[i].(events := events)], fds, SetEvents(t, k, events))
  {
    var c := CtxOf(fds, k);
    SetSlotKeeps(poll, fds, t.regs, k, events, c.cb);
    SetCtxGets(fds, k, c);
    assert SetCtx(fds, k, c) == fds;
    assert SetEvents(t, k, events).regs == t.regs[k := t.regs[k].(events := events, cb := c.cb)];
  }

  lemma EntryActive(poll: seq<PollEntry>, fds: Entries, t: Table, fd: nat)
    requires Coupled(poll, fds, t)
    ensures EntryOf(fds, fd).read.active == (Key(fd, Read) in t.regs)
    ensures EntryOf(fds, fd).write.active == (Key(fd, Write) in t.regs)
  {
    assert CtxOf(fds, Key(fd, Read)).active == EntryOf(fds, fd).read.active;
    assert CtxOf(fds, Key(fd, Write)).active == EntryOf(fds, fd).write.active;
  }

  /** The test made before a callback is called is Live. */
  lemma LiveInTable(poll: seq<PollEntry>, fds: Entries, t: Table, item: Item)
    requires Coupled(poll, fds, t)
    ensures Live(t, item) <==>
              && item.key.Some? && item.key.value.fd in fds
              && var c := CtxOf(fds, item.key.value); c.active && c.gen == item.gen && c.cb.Some?
  {
  }

  lemma DispatchStep(t: Table, snapshot: seq<Item>, revents: seq<bv16>, behave: nat -> seq<Op>, i: nat,
                     before: Table, after: Table)
    requires i < |snapshot| == |revents| && before == Dispatch(t, snapshot, revents, behave, i)
    requires after == DispatchOne(before, snapshot[i], revents[i], behave(i))
    ensures after == Dispatch(t, snapshot, revents, behave, i + 1)
  {
  }

  lemma FireCoupled(poll: seq<PollEntry>, fds: Entries, t: Table, item: Item)
    requires Coupled(poll, fds, t) && Live(t, item)
    ensures var k := item.key.value;
            var i := CtxOf(fds, k).index.value;
            Coupled(if k.kind.Write? then poll[i := poll[i].(events := 0)] else poll, fds, Fire(t, item))
  {
    var k := item.key.value;
    if k.kind.Write? {
      SetEventsCoupled(poll, fds, t, k, 0);
    }
  }

  // ---- Cleanup -------------------------------------------------------------------------

  predicate Idle(e: FdEntry) {
    !e.read.active && !e.write.active
  }

  /** The entries after the first n fds of the cleanup list have been looked at. */
  function ErasedUpTo(fds: Entries, cleanup: seq<nat>, n: nat): Entries
    requires n <= |cleanup|
  {
    map fd | fd in fds && !(Idle(fds[fd]) && fd in cleanup[..n]) :: fds[fd]
  }

  /** An entry up for erasure holds no duplicate: the close in cleanup is never reached. */
  lemma NoDuplicateLeft(poll: seq<PollEntry>, fds: Entries, t: Table, fd: nat)
    requires Coupled(poll, fds, t) && fd in fds && Idle(fds[fd])
    ensures fds[fd].write.fd == -1
  {
    EntryActive(poll, fds, t, fd);
    assert CtxOf(fds, Key(fd, Write)) == fds[fd].write;
  }

  lemma CleanupCoupled(poll: seq<PollEntry>, fds: Entries, t: Table)
    requires Coupled(poll, fds, t)
    ensures Coupled(poll, ErasedUpTo(fds, t.cleanup, |t.cleanup|), Cleanup(t))
  {
    var fds' := ErasedUpTo(fds, t.cleanup, |t.cleanup|);
    assert t.cleanup[..|t.cleanup|] == t.cleanup;
    forall fd ensures Active(t.regs, fd) == !Idle(EntryOf(fds, fd)) {
      EntryActive(poll, fds, t, fd);
    }
    assert fds'.Keys == Cleanup(t).known;
    forall k ensures k in t.regs ==> CtxOf(fds', k) == CtxOf(fds, k) {}
    forall k | k !in t.regs ensures CtxOf(fds', k).fd == -1 && CtxOf(fds', k).index == None && !CtxOf(fds', k).active {
      assert CtxOf(fds', k) == CtxOf(fds, k) || CtxOf(fds', k) == NO_CTX;
    }
  }
}
