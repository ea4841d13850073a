/** What every run of a poll reactor's table does, whatever its callbacks do. */
module InterestsTheorems {
  import opened Wrappers
  import opened Interests

  // ---- Single operations -------------------------------------------------------------

  lemma RegisterKeeps(t: Table, k: Key, events: bv16, cb: Option<Cb>)
    requires RegsInv(t) && KnownInv(t) && LogInv(t)
    ensures var t' := Register(t, k, events, cb); RegsInv(t') && KnownInv(t') && LogInv(t')
  {
    RegisterKeepsRegs(t, k, events, cb);
    RegisterKeepsKnown(t, k, events, cb);
    var t' := Register(t, k, events, cb);
    assert forall l :: l in t'.regs ==> l == k || t'.regs[l] == t.regs[l];
  }

  lemma RegisterKeepsRegs(t: Table, k: Key, events: bv16, cb: Option<Cb>)
    requires RegsInv(t)
    ensures RegsInv(Register(t, k, events, cb))
  {
  }

  lemma RegisterKeepsKnown(t: Table, k: Key, events: bv16, cb: Option<Cb>)
    requires KnownInv(t)
    ensures KnownInv(Register(t, k, events, cb))
  {
    var t' := Register(t, k, events, cb);
    assert Active(t'.regs, k.fd) by {
      if k.kind.Read? { assert Key(k.fd, Read) == k; } else { assert Key(k.fd, Write) == k; }
    }
    forall fd | fd in t'.known && !Active(t'.regs, fd) ensures fd in t'.cleanup || fd in t'.strays {
      assert !Active(t.regs, fd);
    }
  }

  /** A fresh duplicate keeps the descriptors matched with the write interests. */
  lemma DuplicateKeeps(t: Table, fd: nat, d: nat, cb: Option<Cb>)
    requires DupsInv(t) && Key(fd, Write) !in t.regs && d !in t.open
    ensures DupsInv(Register(t.(dups := t.dups[fd := d], open := t.open + {d}), Key(fd, Write), 0, cb))
  {
    var t' := Register(t.(dups := t.dups[fd := d], open := t.open + {d}), Key(fd, Write), 0, cb);
    forall e | e in t'.open ensures exists gd :: gd in t'.dups && t'.dups[gd] == e {
      if e == d {
        assert t'.dups[fd] == e;
      } else {
        var gd :| gd in t.dups && t.dups[gd] == e;
        assert t'.dups[gd] == e;
      }
    }
  }

  lemma RegisterWriteKeeps(t: Table, fd: nat, cb: Option<Cb>, dup: Option<nat>)
    requires TableInv(t)
    ensures TableInv(RegisterWrite(t, fd, cb, dup))
  {
    var k := Key(fd, Write);
    var d := DupOutcome(t, dup);
    if k in t.regs {
      RegisterKeeps(t, k, 0, cb);
    } else if d.Some? {
      DuplicateKeeps(t, fd, d.value, cb);
      RegisterKeeps(t.(dups := t.dups[fd := d.value], open := t.open + {d.value}), k, 0, cb);
    }
  }

  lemma DropKeepsDups(t: Table, k: Key)
    requires DupsInv(t) && k in t.regs
    ensures DupsInv(Drop(t, k))
  {
    var t' := Drop(t, k);
    if k.kind.Write? {
      forall d | d in t'.open ensures exists fd :: fd in t'.dups && t'.dups[fd] == d {
        var fd :| fd in t.dups && t.dups[fd] == d;
        assert fd in t'.dups;
      }
    } else {
      assert t'.dups == t.dups && t'.open == t.open;
    }
  }

  lemma DropKeepsRegs(t: Table, k: Key)
    requires RegsInv(t) && k in t.regs
    ensures RegsInv(Drop(t, k))
    ensures forall fd :: fd != k.fd ==> Active(Drop(t, k).regs, fd) == Active(t.regs, fd)
  {
  }

  lemma DropKeepsLog(t: Table, k: Key)
    requires RegsInv(t) && LogInv(t) && k in t.regs
    ensures LogInv(Drop(t, k))
  {
    var t' := Drop(t, k);
    var last := Removed(t.regs[k].gen);
    assert t'.log == t.log + [last];
    forall l | l in t'.regs ensures Removed(t'.regs[l].gen) !in t'.log {
      assert l in t.regs && l != k && t'.regs[l] == t.regs[l];
    }
  }

  lemma UnregisterKeeps(t: Table, k: Key)
    requires TableInv(t)
    ensures TableInv(Unregister(t, k))
  {
    if k in t.regs {
      DropKeepsDups(t, k);
      DropKeepsRegs(t, k);
      DropKeepsLog(t, k);
    }
    var t' := Unregister(t, k);
    forall fd | fd in t'.known && !Active(t'.regs, fd) ensures fd in t'.cleanup || fd in t'.strays {
      assert fd == k.fd || !Active(t.regs, fd);
    }
  }

  lemma SetEventsKeeps(t: Table, k: Key, events: bv16)
    requires TableInv(t) && k in t.regs
    ensures TableInv(SetEvents(t, k, events))
  {
    var t' := SetEvents(t, k, events);
    assert forall fd :: Active(t'.regs, fd) == Active(t.regs, fd);
  }

  lemma LogKeeps(t: Table, e: Event)
    requires TableInv(t) && !e.Removed?
    requires e.Fired? ==> Removed(e.gen) !in t.log
    ensures TableInv(Logged(t, e))
  {
  }

  lemma RequestKeeps(t: Table, fd: nat, events: bv16)
    requires TableInv(t)
    ensures TableInv(Request(t, fd, events))
  {
    var k := Key(fd, Write);
    if k in t.regs {
      SetEventsKeeps(t, k, events);
      LogKeeps(SetEvents(t, k, events), Requested(t.regs[k].gen));
    }
  }

  lemma ApplyKeeps(t: Table, op: Op)
    requires TableInv(t)
    ensures TableInv(Apply(t, op))
  {
    match op
    case AddRead(fd, events, cb) => RegisterKeeps(t, Key(fd, Read), events, cb);
    case RemRead(fd) => UnregisterKeeps(t, Key(fd, Read));
    case AddWrite(fd, cb, dup) => RegisterWriteKeeps(t, fd, cb, dup);
    case RemWrite(fd) => UnregisterKeeps(t, Key(fd, Write));
    case ReqWrite(fd, events) => RequestKeeps(t, fd, events);
  }

  /** An operation erases no entry, fires nothing and logs at most one event. */
  lemma ApplyLogs(t: Table, op: Op)
    ensures var t' := Apply(t, op);
            && t.known <= t'.known
            && (t'.log == t.log || exists e: Event :: t'.log == t.log + [e] && !e.Fired? && !e.Unasked?)
  {
  }

  lemma {:induction false} ApplyAllLogs(t: Table, ops: seq<Op>)
    ensures var t' := ApplyAll(t, ops);
            && t.known <= t'.known && t.log <= t'.log
            && forall b :: |t.log| <= b < |t'.log| ==> !t'.log[b].Fired? && !t'.log[b].Unasked?
    decreases |ops|
  {
    if ops != [] {
      ApplyAllLogs(t, ops[..|ops| - 1]);
      ApplyLogs(ApplyAll(t, ops[..|ops| - 1]), ops[|ops| - 1]);
    }
  }

  lemma ApplyCounts(t: Table, op: Op, kind: Kind, g: nat)
    ensures Count(Apply(t, op), Fired(kind, g)) == Count(t, Fired(kind, g))
    ensures Count(Apply(t, op), Unasked(kind, g)) == Count(t, Unasked(kind, g))
  {
    ApplyLogs(t, op);
  }

  lemma {:induction false} ApplyAllCounts(t: Table, ops: seq<Op>, kind: Kind, g: nat)
    ensures Count(ApplyAll(t, ops), Fired(kind, g)) == Count(t, Fired(kind, g))
    ensures Count(ApplyAll(t, ops), Unasked(kind, g)) == Count(t, Unasked(kind, g))
    decreases |ops|
  {
    if ops != [] {
      ApplyAllCounts(t, ops[..|ops| - 1], kind, g);
      ApplyCounts(ApplyAll(t, ops[..|ops| - 1]), ops[|ops| - 1], kind, g);
    }
  }

  // ---- One-shot writes: every invocation is paid for -----------------------------------

  /** Counts only grow, firings stay, and what becomes armed was requested. */
  ghost predicate Pays(t: Table, t': Table) {
    forall g: nat ::
      && Count(t', Fired(Write, g)) == Count(t, Fired(Write, g))
      && Count(t', Requested(g)) >= Count(t, Requested(g))
      && Count(t', Unasked(Write, g)) >= Count(t, Unasked(Write, g))
      && (Armed(t', g) ==> Armed(t, g) || Count(t', Requested(g)) > Count(t, Requested(g)))
  }

  lemma RegisterPays(t: Table, k: Key, events: bv16, cb: Option<Cb>)
    requires k.kind.Write? ==> events == 0
    ensures Pays(t, Register(t, k, events, cb))
  {
  }

  lemma DropPays(t: Table, k: Key)
    requires k in t.regs
    ensures Pays(t, Drop(t, k))
  {
  }

  lemma RequestPays(t: Table, fd: nat, events: bv16)
    requires RegsInv(t)
    ensures Pays(t, Request(t, fd, events))
  {
  }

  lemma RegisterWritePays(t: Table, fd: nat, cb: Option<Cb>, dup: Option<nat>)
    ensures Pays(t, RegisterWrite(t, fd, cb, dup))
  {
    var d := DupOutcome(t, dup);
    if Key(fd, Write) in t.regs {
      RegisterPays(t, Key(fd, Write), 0, cb);
    } else if d.Some? {
      var t1 := t.(dups := t.dups[fd := d.value], open := t.open + {d.value});
      RegisterPays(t1, Key(fd, Write), 0, cb);
      assert forall g: nat :: Armed(t1, g) == Armed(t, g);
    }
  }

  lemma ApplyPays(t: Table, op: Op)
    requires TableInv(t)
    ensures Pays(t, Apply(t, op))
  {
    match op
    case AddRead(fd, events, cb) => RegisterPays(t, Key(fd, Read), events, cb);
    case RemRead(fd) => UnregisterPays(t, Key(fd, Read));
    case AddWrite(fd, cb, dup) => RegisterWritePays(t, fd, cb, dup);
    case RemWrite(fd) => UnregisterPays(t, Key(fd, Write));
    case ReqWrite(fd, events) => RequestPays(t, fd, events);
  }

  lemma UnregisterPays(t: Table, k: Key)
    ensures Pays(t, Unregister(t, k))
  {
    if k in t.regs {
      DropPays(t, k);
    }
  }

  lemma ApplyStaysSound(t: Table, op: Op, snapshot: seq<Item>, i: nat)
    requires Sound(t, snapshot, i)
    ensures Sound(Apply(t, op), snapshot, i)
  {
    ApplyKeeps(t, op);
    ApplyPays(t, op);
  }

  lemma {:induction false} ApplyAllKeeps(t: Table, ops: seq<Op>, snapshot: seq<Item>, i: nat)
    requires Sound(t, snapshot, i)
    ensures Sound(ApplyAll(t, ops), snapshot, i)
    decreases |ops|
  {
    if ops != [] {
      ApplyAllKeeps(t, ops[..|ops| - 1], snapshot, i);
      ApplyStaysSound(ApplyAll(t, ops[..|ops| - 1]), ops[|ops| - 1], snapshot, i);
    }
  }

  /** No two slots carry the same generation. */
  ghost predicate DistinctGens(snapshot: seq<Item>) {
    forall i, j :: 0 <= i < j < |snapshot| && snapshot[i].key.Some? && snapshot[j].key.Some?
      ==> snapshot[i].gen != snapshot[j].gen
  }

  lemma SnapshotsAreDistinct(t: Table, snapshot: seq<Item>)
    requires RegsInv(t) && SnapshotOf(t, snapshot)
    ensures DistinctGens(snapshot)
  {
    forall i, j | 0 <= i < j < |snapshot| && snapshot[i].key.Some? && snapshot[j].key.Some?
      ensures snapshot[i].gen != snapshot[j].gen
    {
      assert snapshot[i].key != snapshot[j].key;
    }
  }

  /** Taking the snapshot moves no payment. */
  lemma SnapshotPaid(t: Table, snapshot: seq<Item>)
    requires Paid(t, [], 0) && SnapshotOf(t, snapshot)
    ensures Paid(t, snapshot, 0)
  {
    forall g: nat | SnapArmed(snapshot, 0, g) ensures Armed(t, g) {
      var j :| 0 <= j < |snapshot| && snapshot[j].key.Some? && snapshot[j].key.value.kind.Write?
               && snapshot[j].gen == g && snapshot[j].events != 0;
      var k := snapshot[j].key.value;
      assert Key(k.fd, Write) == k;
    }
    assert forall g: nat :: !SnapArmed([], 0, g);
  }

  lemma SkipPaid(t: Table, snapshot: seq<Item>, i: nat)
    requires i < |snapshot| && Paid(t, snapshot, i)
    ensures Paid(t, snapshot, i + 1)
  {
    assert forall g: nat :: SnapArmed(snapshot, i + 1, g) ==> SnapArmed(snapshot, i, g);
  }

  lemma NotedKeeps(t: Table, item: Item)
    requires TableInv(t) && item.key.Some? && Removed(item.gen) !in t.log
    ensures TableInv(Noted(t, item)) && Removed(item.gen) !in Noted(t, item).log
  {
    if item.events == 0 {
      LogKeeps(t, Unasked(item.key.value.kind, item.gen));
    }
  }

  lemma FireKeeps(t: Table, item: Item)
    requires TableInv(t) && Live(t, item)
    ensures TableInv(Fire(t, item))
  {
    var k := item.key.value;
    var disarmed := if k.kind.Write? then SetEvents(t, k, 0) else t;
    assert TableInv(disarmed) by {
      if k.kind.Write? {
        SetEventsKeeps(t, k, 0);
      }
    }
    NotedKeeps(disarmed, item);
    var called := Called(item.gen, t.regs[k].cb.value);
    LogKeeps(Noted(disarmed, item), called);
    LogKeeps(Logged(Noted(disarmed, item), called), Fired(k.kind, item.gen));
  }

  /** What one firing adds to the counts. */
  lemma FireCounts(t: Table, item: Item, g: nat)
    requires Live(t, item)
    ensures var t' := Fire(t, item);
            && Count(t', Requested(g)) == Count(t, Requested(g))
            && Count(t', Unasked(Write, g)) == Count(t, Unasked(Write, g))
               + (if g == item.gen && item.key.value.kind.Write? && item.events == 0 then 1 else 0)
            && Count(t', Fired(Write, g)) == Count(t, Fired(Write, g))
               + (if g == item.gen && item.key.value.kind.Write? then 1 else 0)
  {
  }

  /** A firing arms nothing, and disarms the write interest it is for. */
  lemma FireDisarms(t: Table, item: Item, g: nat)
    requires RegsInv(t) && Live(t, item)
    ensures Armed(Fire(t, item), g) ==> Armed(t, g)
    ensures item.key.value.kind.Write? ==> !Armed(Fire(t, item), item.gen)
  {
    var t' := Fire(t, item);
    var k := item.key.value;
    assert t'.regs == if k.kind.Write? then t.regs[k := t.regs[k].(events := 0)] else t.regs;
  }

  /** The slots behind slot i are not for the same registration. */
  lemma SlotSpent(snapshot: seq<Item>, i: nat, g: nat)
    requires DistinctGens(snapshot) && i < |snapshot| && snapshot[i].key.Some?
    ensures SnapArmed(snapshot, i + 1, g) ==> SnapArmed(snapshot, i, g)
    ensures !SnapArmed(snapshot, i + 1, snapshot[i].gen)
  {
  }

  lemma FirePaid(t: Table, snapshot: seq<Item>, i: nat)
    requires RegsInv(t) && DistinctGens(snapshot) && i < |snapshot| && Live(t, snapshot[i])
    requires Paid(t, snapshot, i)
    ensures Paid(Fire(t, snapshot[i]), snapshot, i + 1)
  {
    var item := snapshot[i];
    forall g: nat
      ensures var t' := Fire(t, item);
              Count(t', Fired(Write, g)) + (if Armed(t', g) || SnapArmed(snapshot, i + 1, g) then 1 else 0)
              <= Count(t', Requested(g)) + Count(t', Unasked(Write, g))
    {
      FireCounts(t, item, g);
      FireDisarms(t, item, g);
      SlotSpent(snapshot, i, g);
      assert item.events != 0 && item.key.value.kind.Write? ==> SnapArmed(snapshot, i, item.gen);
    }
  }

  // ---- Dispatch ----------------------------------------------------------------------

  lemma DispatchOneKeeps(t: Table, snapshot: seq<Item>, i: nat, revents: bv16, ops: seq<Op>)
    requires i < |snapshot| && DistinctGens(snapshot) && Sound(t, snapshot, i)
    ensures Sound(DispatchOne(t, snapshot[i], revents, ops), snapshot, i + 1)
  {
    if revents != 0 && Live(t, snapshot[i]) {
      FireKeeps(t, snapshot[i]);
      FirePaid(t, snapshot, i);
      ApplyAllKeeps(Fire(t, snapshot[i]), ops, snapshot, i + 1);
    } else {
      SkipPaid(t, snapshot, i);
    }
  }

  /** What holds before a dispatch and is kept by each slot holds after it. */
  lemma {:induction false} DispatchInduction(p: (Table, nat) -> bool, t: Table, snapshot: seq<Item>,
                                             revents: seq<bv16>, behave: nat -> seq<Op>, n: nat)
    requires n <= |snapshot| == |revents| && p(t, 0)
    requires forall u: Table, i: nat :: i < |snapshot| && p(u, i)
               ==> p(DispatchOne(u, snapshot[i], revents[i], behave(i)), i + 1)
    ensures p(Dispatch(t, snapshot, revents, behave, n), n)
  {
    if n > 0 {
      DispatchInduction(p, t, snapshot, revents, behave, n - 1);
    }
  }

  lemma DispatchKeeps(t: Table, snapshot: seq<Item>, revents: seq<bv16>, behave: nat -> seq<Op>, n: nat)
    requires n <= |snapshot| == |revents| && DistinctGens(snapshot) && Sound(t, snapshot, 0)
    ensures Sound(Dispatch(t, snapshot, revents, behave, n), snapshot, n)
  {
    forall u: Table, i: nat | i < |snapshot| && Sound(u, snapshot, i)
      ensures Sound(DispatchOne(u, snapshot[i], revents[i], behave(i)), snapshot, i + 1)
    {
      DispatchOneKeeps(u, snapshot, i, revents[i], behave(i));
    }
    DispatchInduction((u: Table, i: nat) => Sound(u, snapshot, i), t, snapshot, revents, behave, n);
  }

  /** The event at b is an invocation for one of the first n slots, which poll reported. */
  ghost predicate FromSnapshot(e: Event, snapshot: seq<Item>, revents: seq<bv16>, n: nat)
    requires n <= |snapshot| == |revents|
  {
    exists j :: 0 <= j < n && revents[j] != 0 && snapshot[j].key.Some?
                && e == Fired(snapshot[j].key.value.kind, snapshot[j].gen)
  }

  /** Whatever the callbacks add, remove and add again: an invocation is for a registration
      that was in the polled snapshot and that poll reported, at most once in the pass, and no
      entry is erased while dispatching. */
  lemma {:induction false} DispatchIsGenerationSafe(t: Table, snapshot: seq<Item>, revents: seq<bv16>,
                                                    behave: nat -> seq<Op>, n: nat)
    requires n <= |snapshot| == |revents| && DistinctGens(snapshot)
    ensures var t' := Dispatch(t, snapshot, revents, behave, n);
            && t.log <= t'.log && t.known <= t'.known
            && (forall b :: |t.log| <= b < |t'.log| && t'.log[b].Fired?
                  ==> FromSnapshot(t'.log[b], snapshot, revents, n))
            && (forall a, b :: |t.log| <= a < b < |t'.log| && t'.log[a].Fired? && t'.log[b].Fired?
                  ==> t'.log[a].gen != t'.log[b].gen)
  {
    if n > 0 {
      DispatchIsGenerationSafe(t, snapshot, revents, behave, n - 1);
      var t1 := Dispatch(t, snapshot, revents, behave, n - 1);
      var t' := Dispatch(t, snapshot, revents, behave, n);
      forall e | FromSnapshot(e, snapshot, revents, n - 1)
        ensures FromSnapshot(e, snapshot, revents, n)
                && (snapshot[n - 1].key.Some? ==> e.gen != snapshot[n - 1].gen)
      {
      }
      if revents[n - 1] != 0 && Live(t1, snapshot[n - 1]) {
        var fired := Fire(t1, snapshot[n - 1]);
        ApplyAllLogs(fired, behave(n - 1));
        FiringIsNew(t.log, t1.log, fired.log, t'.log, snapshot, revents, n);
      }
    }
  }

  /** One more firing after a prefix that only fired earlier slots. */
  lemma FiringIsNew(l0: seq<Event>, l1: seq<Event>, l2: seq<Event>, l3: seq<Event>,
                    snapshot: seq<Item>, revents: seq<bv16>, n: nat)
    requires 0 < n <= |snapshot| == |revents| && l0 <= l1 <= l2 <= l3
    requires revents[n - 1] != 0 && snapshot[n - 1].key.Some?
    requires |l2| > |l1| && l2[|l2| - 1] == Fired(snapshot[n - 1].key.value.kind, snapshot[n - 1].gen)
    requires forall b :: |l1| <= b < |l2| - 1 ==> !l2[b].Fired?
    requires forall b :: |l2| <= b < |l3| ==> !l3[b].Fired?
    requires forall b :: |l0| <= b < |l1| && l1[b].Fired?
               ==> FromSnapshot(l1[b], snapshot, revents, n) && l1[b].gen != snapshot[n - 1].gen
    requires forall a, b :: |l0| <= a < b < |l1| && l1[a].Fired? && l1[b].Fired? ==> l1[a].gen != l1[b].gen
    ensures forall b :: |l0| <= b < |l3| && l3[b].Fired? ==> FromSnapshot(l3[b], snapshot, revents, n)
    ensures forall a, b :: |l0| <= a < b < |l3| && l3[a].Fired? && l3[b].Fired? ==> l3[a].gen != l3[b].gen
  {
    assert FromSnapshot(l2[|l2| - 1], snapshot, revents, n);
    forall b | |l0| <= b < |l3| && l3[b].Fired?
      ensures (b < |l1| && l3[b] == l1[b]) || (b == |l2| - 1 && l3[b] == l2[b])
    {
      assert b < |l2| ==> l3[b] == l2[b];
      assert b < |l1| ==> l2[b] == l1[b];
    }
  }

  /** Slot j of the snapshot is reported and its registration is still there when its turn comes. */
  predicate Served(t: Table, snapshot: seq<Item>, revents: seq<bv16>, behave: nat -> seq<Op>, j: nat)
    requires j < |snapshot| == |revents|
  {
    revents[j] != 0 && Live(Dispatch(t, snapshot, revents, behave, j), snapshot[j])
  }

  lemma SlotCounts(t: Table, item: Item, revents: bv16, ops: seq<Op>, kind: Kind, g: nat)
    ensures var t' := DispatchOne(t, item, revents, ops);
            var mine := revents != 0 && Live(t, item) && item.key.value.kind == kind && item.gen == g;
            && Count(t', Fired(kind, g)) == Count(t, Fired(kind, g)) + (if mine then 1 else 0)
            && Count(t', Unasked(kind, g))
               == Count(t, Unasked(kind, g)) + (if mine && item.events == 0 then 1 else 0)
  {
    if revents != 0 && Live(t, item) {
      var fired := Fire(t, item);
      ApplyAllCounts(fired, ops, kind, g);
    }
  }

  /** The slot is for the registration g of this kind. */
  predicate IsFor(item: Item, kind: Kind, g: nat) {
    item.key.Some? && item.key.value.kind == kind && item.gen == g
  }

  /** Slots for other registrations do not invoke this one. */
  lemma {:induction false} OtherSlotsCounts(t: Table, snapshot: seq<Item>, revents: seq<bv16>,
                                            behave: nat -> seq<Op>, a: nat, n: nat, kind: Kind, g: nat)
    requires a <= n <= |snapshot| == |revents|
    requires forall i :: a <= i < n ==> !IsFor(snapshot[i], kind, g)
    ensures var t1 := Dispatch(t, snapshot, revents, behave, a);
            var t2 := Dispatch(t, snapshot, revents, behave, n);
            && Count(t2, Fired(kind, g)) == Count(t1, Fired(kind, g))
            && Count(t2, Unasked(kind, g)) == Count(t1, Unasked(kind, g))
    decreases n
  {
    if a < n {
      OtherSlotsCounts(t, snapshot, revents, behave, a, n - 1, kind, g);
      var before := Dispatch(t, snapshot, revents, behave, n - 1);
      assert !IsFor(snapshot[n - 1], kind, g);
      SlotCounts(before, snapshot[n - 1], revents[n - 1], behave(n - 1), kind, g);
    }
  }

  /** Every reported slot whose registration is still there is served, once, and no other: a
      pass invokes a registration's callback exactly when poll reported it and nothing removed
      it before its turn. */
  lemma DispatchCounts(t: Table, snapshot: seq<Item>, revents: seq<bv16>, behave: nat -> seq<Op>, j: nat)
    requires |snapshot| == |revents| && DistinctGens(snapshot) && j < |snapshot| && snapshot[j].key.Some?
    ensures var t' := Dispatch(t, snapshot, revents, behave, |snapshot|);
            var kind, g := snapshot[j].key.value.kind, snapshot[j].gen;
            var served := Served(t, snapshot, revents, behave, j);
            && Count(t', Fired(kind, g)) == Count(t, Fired(kind, g)) + (if served then 1 else 0)
            && Count(t', Unasked(kind, g)) == Count(t, Unasked(kind, g))
                                              + (if served && snapshot[j].events == 0 then 1 else 0)
  {
    var kind, g := snapshot[j].key.value.kind, snapshot[j].gen;
    OtherSlotsCounts(t, snapshot, revents, behave, 0, j, kind, g);
    var before := Dispatch(t, snapshot, revents, behave, j);
    SlotCounts(before, snapshot[j], revents[j], behave(j), kind, g);
    OtherSlotsCounts(t, snapshot, revents, behave, j + 1, |snapshot|, kind, g);
  }

  // ---- Cleanup -------------------------------------------------------------------------

  /** Cleanup erases exactly the inactive entries asked for; what remains is active or was
      left by a failed dup. */
  lemma CleanupExact(t: Table)
    requires TableInv(t)
    ensures var t' := Cleanup(t);
            && TableInv(t') && t'.regs == t.regs && t'.open == t.open && t'.log == t.log
            && (forall fd :: fd in t.known && fd !in t'.known
                  <==> fd in t.known && fd in t.cleanup && !Active(t.regs, fd))
            && (forall fd :: fd in t'.known ==> Active(t'.regs, fd) || fd in t'.strays)
  {
    forall k | k in t.regs ensures Active(t.regs, k.fd) {
      if k.kind.Read? { assert Key(k.fd, Read) == k; } else { assert Key(k.fd, Write) == k; }
    }
  }

  // ---- Whole runs ----------------------------------------------------------------------

  lemma PassKeeps(t: Table, turn: Turn)
    requires Sound(t, [], 0) && Possible(t, turn)
    ensures Sound(Pass(t, turn), [], 0)
  {
    SnapshotsAreDistinct(t, turn.snapshot);
    SnapshotPaid(t, turn.snapshot);
    DispatchKeeps(t, turn.snapshot, turn.revents, turn.behave, |turn.snapshot|);
    var t1 := Dispatched(t, turn);
    SpentPaid(t1, turn.snapshot);
    ApplyAllKeeps(t1, turn.posted, [], 0);
    var t2 := ApplyAll(t1, turn.posted);
    CleanupStaysSound(t2);
    ApplyAllKeeps(Cleanup(t2), turn.timers, [], 0);
  }

  lemma SpentPaid(t: Table, snapshot: seq<Item>)
    requires Sound(t, snapshot, |snapshot|)
    ensures Sound(t, [], 0)
  {
    assert forall g: nat :: !SnapArmed(snapshot, |snapshot|, g) && !SnapArmed([], 0, g);
  }

  lemma CleanupStaysSound(t: Table)
    requires Sound(t, [], 0)
    ensures Sound(Cleanup(t), [], 0)
  {
    CleanupExact(t);
    assert forall g: nat :: Armed(Cleanup(t), g) == Armed(t, g);
  }

  lemma {:induction false} RunKeeps(t: Table, turns: seq<Turn>)
    requires Sound(t, [], 0) && Playable(t, turns)
    ensures Sound(Play(t, turns), [], 0)
    decreases |turns|
  {
    if turns != [] {
      PassKeeps(t, turns[0]);
      RunKeeps(Pass(t, turns[0]), turns[1..]);
    }
  }

  lemma EmptySound()
    ensures Sound(EMPTY, [], 0)
  {
  }

  /** The table after any operations made before `run` and any passes. */
  lemma Reachable(setup: seq<Op>, turns: seq<Turn>)
    requires Playable(ApplyAll(EMPTY, setup), turns)
    ensures Sound(Play(ApplyAll(EMPTY, setup), turns), [], 0)
  {
    EmptySound();
    ApplyAllKeeps(EMPTY, setup, [], 0);
    RunKeeps(ApplyAll(EMPTY, setup), turns);
  }

  // ---- One-shot writes over whole runs ---------------------------------------------------

  /** In this pass the callback of the write registration g is invoked: poll reported its slot,
      and at its turn it is still registered with a callback.  `unasked`: the slot asked for
      nothing. */
  ghost predicate ServedIn(t: Table, turn: Turn, g: nat, unasked: bool)
    requires |turn.revents| == |turn.snapshot|
  {
    exists j :: 0 <= j < |turn.snapshot| && IsFor(turn.snapshot[j], Write, g)
                && (unasked ==> turn.snapshot[j].events == 0)
                && Served(t, turn.snapshot, turn.revents, turn.behave, j)
  }

  /** In how many passes of a run, counted from what poll reported. */
  ghost function ServedPasses(t: Table, turns: seq<Turn>, g: nat, unasked: bool): nat
    requires Playable(t, turns)
    decreases |turns|
  {
    if turns == [] then 0
    else (if ServedIn(t, turns[0], g, unasked) then 1 else 0) + ServedPasses(Pass(t, turns[0]), turns[1..], g, unasked)
  }

  /** There is at most one slot for g. */
  lemma ServedAt(t: Table, turn: Turn, g: nat, unasked: bool, j: nat)
    requires |turn.revents| == |turn.snapshot| && DistinctGens(turn.snapshot)
    requires j < |turn.snapshot| && IsFor(turn.snapshot[j], Write, g)
    ensures ServedIn(t, turn, g, unasked) <==>
            Served(t, turn.snapshot, turn.revents, turn.behave, j) && (unasked ==> turn.snapshot[j].events == 0)
  {
    assert forall i :: 0 <= i < |turn.snapshot| && IsFor(turn.snapshot[i], Write, g) ==> i == j;
  }

  lemma DispatchedCounts(t: Table, turn: Turn, g: nat)
    requires RegsInv(t) && Possible(t, turn)
    ensures var t' := Dispatched(t, turn);
            && Count(t', Fired(Write, g)) == Count(t, Fired(Write, g)) + (if ServedIn(t, turn, g, false) then 1 else 0)
            && Count(t', Unasked(Write, g))
               == Count(t, Unasked(Write, g)) + (if ServedIn(t, turn, g, true) then 1 else 0)
  {
    SnapshotsAreDistinct(t, turn.snapshot);
    if j :| 0 <= j < |turn.snapshot| && IsFor(turn.snapshot[j], Write, g) {
      DispatchCounts(t, turn.snapshot, turn.revents, turn.behave, j);
      ServedAt(t, turn, g, false, j);
      ServedAt(t, turn, g, true, j);
    } else {
      OtherSlotsCounts(t, turn.snapshot, turn.revents, turn.behave, 0, |turn.snapshot|, Write, g);
    }
  }

  lemma PassCounts(t: Table, turn: Turn, g: nat)
    requires RegsInv(t) && Possible(t, turn)
    ensures var t' := Pass(t, turn);
            && Count(t', Fired(Write, g)) == Count(t, Fired(Write, g)) + (if ServedIn(t, turn, g, false) then 1 else 0)
            && Count(t', Unasked(Write, g))
               == Count(t, Unasked(Write, g)) + (if ServedIn(t, turn, g, true) then 1 else 0)
  {
    DispatchedCounts(t, turn, g);
    var t1 := Dispatched(t, turn);
    ApplyAllCounts(t1, turn.posted, Write, g);
    ApplyAllCounts(Cleanup(ApplyAll(t1, turn.posted)), turn.timers, Write, g);
  }

  lemma {:induction false} RunCounts(t: Table, turns: seq<Turn>, g: nat)
    requires Sound(t, [], 0) && Playable(t, turns)
    ensures var t' := Play(t, turns);
            && Count(t', Fired(Write, g)) == Count(t, Fired(Write, g)) + ServedPasses(t, turns, g, false)
            && Count(t', Unasked(Write, g)) == Count(t, Unasked(Write, g)) + ServedPasses(t, turns, g, true)
    decreases |turns|
  {
    if turns != [] {
      PassCounts(t, turns[0], g);
      PassKeeps(t, turns[0]);
      RunCounts(Pass(t, turns[0]), turns[1..], g);
    }
  }

  lemma {:induction false} UnaskedAreServed(t: Table, turns: seq<Turn>, g: nat)
    requires Playable(t, turns)
    ensures ServedPasses(t, turns, g, true) <= ServedPasses(t, turns, g, false)
    decreases |turns|
  {
    if turns != [] {
      UnaskedAreServed(Pass(t, turns[0]), turns[1..], g);
    }
  }

  /** Before run nothing is invoked. */
  lemma SetupCounts(setup: seq<Op>, g: nat)
    ensures var t := ApplyAll(EMPTY, setup);
            Sound(t, [], 0) && Count(t, Fired(Write, g)) == 0 && Count(t, Unasked(Write, g)) == 0
  {
    EmptySound();
    ApplyAllKeeps(EMPTY, setup, [], 0);
    ApplyAllCounts(EMPTY, setup, Write, g);
  }

  /** Over every run, the callback of a write registration is invoked in exactly the passes in
      which poll reported it and it was still there at its turn; these are at most the calls of
      req_write and the passes in which it was invoked although it asked for nothing, and only
      the latter if it was never requested. */
  lemma OneShotWrites(setup: seq<Op>, turns: seq<Turn>, g: nat)
    requires Playable(ApplyAll(EMPTY, setup), turns)
    ensures var t0 := ApplyAll(EMPTY, setup);
            var t := Play(t0, turns);
            && Count(t, Fired(Write, g)) == ServedPasses(t0, turns, g, false)
            && Count(t, Fired(Write, g)) <= Count(t, Requested(g)) + ServedPasses(t0, turns, g, true)
            && (Count(t, Requested(g)) == 0 ==> Count(t, Fired(Write, g)) == ServedPasses(t0, turns, g, true))
  {
    SetupCounts(setup, g);
    RunCounts(ApplyAll(EMPTY, setup), turns, g);
    UnaskedAreServed(ApplyAll(EMPTY, setup), turns, g);
    Reachable(setup, turns);
    var armed := Armed(Play(ApplyAll(EMPTY, setup), turns), g);
  }

  /** A promise about what poll reports of write interests: (events asked for, revents). */
  ghost predicate KeptIn(promise: (bv16, bv16) -> bool, turn: Turn) {
    forall i :: 0 <= i < |turn.revents| && i < |turn.snapshot| && turn.revents[i] != 0
                && turn.snapshot[i].key.Some? && turn.snapshot[i].key.value.kind.Write?
      ==> promise(turn.snapshot[i].events, turn.revents[i])
  }

  ghost predicate Keeps(promise: (bv16, bv16) -> bool, turns: seq<Turn>) {
    forall i :: 0 <= i < |turns| ==> KeptIn(promise, turns[i])
  }

  /** poll never reports a write interest that asks for nothing. */
  ghost predicate OnlyWhenAsked(promise: (bv16, bv16) -> bool) {
    forall revents: bv16 :: revents != 0 ==> !promise(0, revents)
  }

  lemma {:induction false} NothingUnasked(promise: (bv16, bv16) -> bool, t: Table, turns: seq<Turn>, g: nat)
    requires OnlyWhenAsked(promise) && Playable(t, turns) && Keeps(promise, turns)
    ensures ServedPasses(t, turns, g, true) == 0
    decreases |turns|
  {
    if turns != [] {
      assert KeptIn(promise, turns[0]);
      NothingUnasked(promise, Pass(t, turns[0]), turns[1..], g);
    }
  }

  /** In this run no write registration is invoked more often than req_write was called for it. */
  ghost predicate OneShot(setup: seq<Op>, turns: seq<Turn>)
    requires Playable(ApplyAll(EMPTY, setup), turns)
  {
    forall g: nat :: var t := Play(ApplyAll(EMPTY, setup), turns); Count(t, Fired(Write, g)) <= Count(t, Requested(g))
  }

  /** Over every run in which poll reports no write interest that asks for nothing, whatever bits
      it reports of the others, the one-shot law holds. */
  lemma OneShotWhenAsked(promise: (bv16, bv16) -> bool, setup: seq<Op>, turns: seq<Turn>)
    requires OnlyWhenAsked(promise) && Playable(ApplyAll(EMPTY, setup), turns) && Keeps(promise, turns)
    ensures OneShot(setup, turns)
  {
    forall g: nat
      ensures var t := Play(ApplyAll(EMPTY, setup), turns); Count(t, Fired(Write, g)) <= Count(t, Requested(g))
    {
      OneShotWrites(setup, turns, g);
      NothingUnasked(promise, ApplyAll(EMPTY, setup), turns, g);
    }
  }

  /** A promise about poll's reports makes the one-shot law hold in every run that keeps it if and
      only if it rules out every report of a write interest that asks for nothing. */
  lemma OneShotExactly(promise: (bv16, bv16) -> bool)
    ensures (forall setup: seq<Op>, turns: seq<Turn> ::
               Playable(ApplyAll(EMPTY, setup), turns) && Keeps(promise, turns) ==> OneShot(setup, turns))
            <==> OnlyWhenAsked(promise)
  {
    if OnlyWhenAsked(promise) {
      forall setup: seq<Op>, turns: seq<Turn> | Playable(ApplyAll(EMPTY, setup), turns) && Keeps(promise, turns)
        ensures OneShot(setup, turns)
      {
        OneShotWhenAsked(promise, setup, turns);
      }
    } else {
      var revents: bv16 :| revents != 0 && promise(0, revents);
      var setup, turn := ReportFiresUnasked(revents);
      assert Keeps(promise, [turn]);
      assert !OneShot(setup, [turn]);
    }
  }

  /** The table with one write registration, for fd 3, that was never requested. */
  const UNASKED: Table := Table(map[Key(3, Write) := Reg(1, 0, Some(5))], {3}, [], 1, map[3 := 7], {7}, {}, [])

  lemma OneWriter()
    ensures ApplyAll(EMPTY, [AddWrite(3, Some(5), Some(7))]) == UNASKED
  {
    var add := AddWrite(3, Some(5), Some(7));
    assert [add][..0] == [] && ApplyAll(EMPTY, [add]) == Apply(EMPTY, add);
  }

  /** A pass in which nothing happens but one report. */
  lemma SingleReport(t: Table, wake: Item, item: Item, revents: bv16) returns (turn: Turn)
    requires Live(t, item) && revents != 0
    ensures turn.snapshot == [wake, item] && turn.revents == [0, revents]
    ensures Pass(t, turn).log == Fire(t, item).log
  {
    turn := Turn([wake, item], [0, revents], (i: nat) => [], [], []);
    assert Dispatch(t, turn.snapshot, turn.revents, turn.behave, 1) == t;
    assert Dispatched(t, turn) == Fire(t, item);
  }

  /** Any report does invoke a write callback nobody asked for. */
  lemma ReportFiresUnasked(revents: bv16) returns (setup: seq<Op>, turn: Turn)
    requires revents != 0
    ensures Playable(ApplyAll(EMPTY, setup), [turn])
    ensures |turn.snapshot| == |turn.revents| == 2 && turn.snapshot[0].key == None
    ensures turn.snapshot[1].events == 0 && turn.revents[1] == revents
    ensures var t := Play(ApplyAll(EMPTY, setup), [turn]);
            Count(t, Fired(Write, 1)) == 1 && Count(t, Requested(1)) == 0
  {
    setup := [AddWrite(3, Some(5), Some(7))];
    OneWriter();
    turn := SingleReport(UNASKED, Item(None, 0, 1), UNASKED_SLOT, revents);
    UnaskedIsPolled();
    UnaskedFires();
    OnePass(UNASKED, turn);
  }

  const UNASKED_SLOT: Item := Item(Some(Key(3, Write)), 1, 0)

  lemma UnaskedIsPolled()
    ensures SnapshotOf(UNASKED, [Item(None, 0, 1), UNASKED_SLOT])
  {
    assert [Item(None, 0, 1), UNASKED_SLOT][1].key == Some(Key(3, Write));
  }

  lemma UnaskedFires()
    ensures Live(UNASKED, UNASKED_SLOT)
    ensures var t := Fire(UNASKED, UNASKED_SLOT); Count(t, Fired(Write, 1)) == 1 && Count(t, Requested(1)) == 0
  {
    assert Fire(UNASKED, UNASKED_SLOT).log == [Unasked(Write, 1), Called(1, 5), Fired(Write, 1)];
  }

  lemma OnePass(t: Table, turn: Turn)
    requires Possible(t, turn)
    ensures Playable(t, [turn]) && Play(t, [turn]) == Pass(t, turn)
  {
    assert [turn][1..] == [];
  }

  /** Over every run, no callback is invoked after its registration was removed, whether or
      not the fd number was registered again. */
  lemma NeverFiresAfterRemoval(setup: seq<Op>, turns: seq<Turn>, a: nat, b: nat)
    requires Playable(ApplyAll(EMPTY, setup), turns)
    requires var t := Play(ApplyAll(EMPTY, setup), turns);
             a < b < |t.log| && t.log[a].Removed? && t.log[b].Fired?
    ensures var t := Play(ApplyAll(EMPTY, setup), turns);
            t.log[a].gen != t.log[b].gen
  {
    Reachable(setup, turns);
    var t := Play(ApplyAll(EMPTY, setup), turns);
    assert t.log[b] == Fired(t.log[b].kind, t.log[b].gen);
  }

  /** In every pass of every run, each invocation is for a registration that was in the
      polled snapshot and was reported, and no registration is invoked twice. */
  lemma GenerationSafePass(setup: seq<Op>, turns: seq<Turn>, turn: Turn)
    requires Playable(ApplyAll(EMPTY, setup), turns)
    requires Possible(Play(ApplyAll(EMPTY, setup), turns), turn)
    ensures var t := Play(ApplyAll(EMPTY, setup), turns);
            var t' := Dispatched(t, turn);
            && t.log <= t'.log && t.known <= t'.known
            && (forall b :: |t.log| <= b < |t'.log| && t'.log[b].Fired?
                  ==> FromSnapshot(t'.log[b], turn.snapshot, turn.revents, |turn.snapshot|))
            && (forall a, b :: |t.log| <= a < b < |t'.log| && t'.log[a].Fired? && t'.log[b].Fired?
                  ==> t'.log[a].gen != t'.log[b].gen)
  {
    Reachable(setup, turns);
    var t := Play(ApplyAll(EMPTY, setup), turns);
    SnapshotsAreDistinct(t, turn.snapshot);
    DispatchIsGenerationSafe(t, turn.snapshot, turn.revents, turn.behave, |turn.snapshot|);
  }

  /** In every pass of every run, a registration of the polled snapshot is invoked exactly when
      poll reported it and it is still registered, with a callback, when its turn comes; and the
      invocation is unasked exactly when its slot asked for nothing. */
  lemma InvokedExactlyWhenServed(setup: seq<Op>, turns: seq<Turn>, turn: Turn, j: nat)
    requires Playable(ApplyAll(EMPTY, setup), turns)
    requires Possible(Play(ApplyAll(EMPTY, setup), turns), turn) && 1 <= j < |turn.snapshot|
    ensures var t := Play(ApplyAll(EMPTY, setup), turns);
            var t' := Dispatched(t, turn);
            var kind, g := turn.snapshot[j].key.value.kind, turn.snapshot[j].gen;
            var served := Served(t, turn.snapshot, turn.revents, turn.behave, j);
            && Count(t', Fired(kind, g)) == Count(t, Fired(kind, g)) + (if served then 1 else 0)
            && Count(t', Unasked(kind, g)) == Count(t, Unasked(kind, g))
               + (if served && turn.snapshot[j].events == 0 then 1 else 0)
  {
    Reachable(setup, turns);
    var t := Play(ApplyAll(EMPTY, setup), turns);
    SnapshotsAreDistinct(t, turn.snapshot);
    DispatchCounts(t, turn.snapshot, turn.revents, turn.behave, j);
  }

  /** Over every run the open duplicates are exactly those of the write interests, and
      different interests have different ones. */
  lemma DescriptorsConserved(setup: seq<Op>, turns: seq<Turn>)
    requires Playable(ApplyAll(EMPTY, setup), turns)
    ensures var t := Play(ApplyAll(EMPTY, setup), turns);
            && (forall fd :: fd in t.dups <==> Key(fd, Write) in t.regs)
            && (forall d :: d in t.open <==> exists fd :: fd in t.dups && t.dups[fd] == d)
            && (forall fd, gd :: fd in t.dups && gd in t.dups && t.dups[fd] == t.dups[gd] ==> fd == gd)
  {
    Reachable(setup, turns);
  }

  /** In every pass of every run, cleanup erases exactly the entries on its list that have no
      active interest, and what remains afterwards is active or was left by a failed dup. */
  lemma CleanupOfEveryPass(setup: seq<Op>, turns: seq<Turn>, turn: Turn)
    requires Playable(ApplyAll(EMPTY, setup), turns)
    requires Possible(Play(ApplyAll(EMPTY, setup), turns), turn)
    ensures var t := ApplyAll(Dispatched(Play(ApplyAll(EMPTY, setup), turns), turn), turn.posted);
            var t' := Cleanup(t);
            && t'.regs == t.regs && t'.open == t.open
            && (forall fd :: fd in t.known && fd !in t'.known
                  <==> fd in t.known && fd in t.cleanup && !Active(t.regs, fd))
            && (forall fd :: fd in t'.known ==> Active(t'.regs, fd) || fd in t'.strays)
  {
    Reachable(setup, turns);
    var t0 := Play(ApplyAll(EMPTY, setup), turns);
    SnapshotsAreDistinct(t0, turn.snapshot);
    SnapshotPaid(t0, turn.snapshot);
    DispatchKeeps(t0, turn.snapshot, turn.revents, turn.behave, |turn.snapshot|);
    ApplyAllKeeps(Dispatched(t0, turn), turn.posted, turn.snapshot, |turn.snapshot|);
    CleanupExact(ApplyAll(Dispatched(t0, turn), turn.posted));
  }
}
