/** detail::poll_reactor's table operations and the table's part of one pass of `run`. */
module PollTable {
  import opened Wrappers
  import opened Interests
  import opened InterestsTheorems
  import opened InterestsEffects
  import opened PollSlots

  const WAKE_PIPE: int := 0
  const POLLIN: bv16 := 1

  class PollTable {
    var pollEntries: seq<PollEntry>
    var fdEntries: Entries
    var pendingCleanup: seq<nat>
    var gen: nat
    var openDups: set<nat>   // what the operating system has open on behalf of dup
    ghost var spec: Table    // the interests, as callers see them

    /** The vector and the entries are those of the interests. */
    ghost predicate Shape()
      reads this
    {
      && Coupled(pollEntries, fdEntries, spec)
      && pendingCleanup == spec.cleanup && gen == spec.gen && openDups == spec.open
    }

    ghost predicate Valid()
      reads this
    {
      Shape() && TableInv(spec)
    }

    constructor ()
      ensures Valid() && spec == EMPTY
    {
      pollEntries := [PollEntry(WAKE_PIPE, POLLIN, None, 0)];
      fdEntries := map[];
      pendingCleanup := [];
      gen := 0;
      openDups := {};
      spec := EMPTY;
    }

    // ---- Helpers on the vector -----------------------------------------------------

    method AddPollEntry(watched: int, k: Key, events: bv16) returns (index: nat)
      modifies this`pollEntries, this`gen
      ensures gen == old(gen) + 1 && index == |old(pollEntries)|
      ensures pollEntries == old(pollEntries) + [PollEntry(watched, events, Some(k), gen)]
    {
      gen := gen + 1;
      pollEntries := pollEntries + [PollEntry(watched, events, Some(k), gen)];
      index := |pollEntries| - 1;
    }

    method SetPollEntry(index: nat, watched: int, events: bv16)
      modifies this`pollEntries
      ensures index >= |old(pollEntries)| ==> pollEntries == old(pollEntries)
      ensures index < |old(pollEntries)| ==>
                pollEntries == old(pollEntries)[index := old(pollEntries)[index].(watched := watched, events := events)]
    {
      if index >= |pollEntries| {
        return;
      }
      pollEntries := pollEntries[index := pollEntries[index].(watched := watched, events := events)];
    }

    method SetPollEvents(index: nat, events: bv16)
      modifies this`pollEntries
      ensures index >= |old(pollEntries)| ==> pollEntries == old(pollEntries)
      ensures index < |old(pollEntries)| ==>
                pollEntries == old(pollEntries)[index := old(pollEntries)[index].(events := events)]
    {
      if index >= |pollEntries| {
        return;
      }
      pollEntries := pollEntries[index := pollEntries[index].(events := events)];
    }

    method RemovePollEntryByIndex(index: nat)
      modifies this`pollEntries, this`fdEntries
      ensures index >= |old(pollEntries)| ==> pollEntries == old(pollEntries) && fdEntries == old(fdEntries)
      ensures index < |old(pollEntries)| ==>
                && pollEntries == SwapRemoved(old(pollEntries), index)
                && fdEntries == Reindexed(old(pollEntries), old(fdEntries), index)
    {
      if index >= |pollEntries| {
        return;
      }
      var last := |pollEntries| - 1;
      if index != last {
        var moved := pollEntries[last];
        pollEntries := pollEntries[index := moved];
        UpdatePollIndex(moved.key, index);
      }
      pollEntries := pollEntries[..|pollEntries| - 1];
    }

    method UpdatePollIndex(k: Option<Key>, newIndex: nat)
      modifies this`fdEntries
      ensures fdEntries == if k == None || k.value.fd !in old(fdEntries) then old(fdEntries)
                           else SetCtx(old(fdEntries), k.value,
                                       CtxOf(old(fdEntries), k.value).(index := Some(newIndex)))
    {
      if k.None? || k.value.fd !in fdEntries {
        return;
      }
      var entry := fdEntries[k.value.fd];
      if k.value.kind.Read? {
        fdEntries := fdEntries[k.value.fd := entry.(read := entry.read.(index := Some(newIndex)))];
      } else {
        fdEntries := fdEntries[k.value.fd := entry.(write := entry.write.(index := Some(newIndex)))];
      }
    }

    /** The common part of add_read and add_write: the context, then a new slot or the
        slot it already has. */
    method Enroll(k: Key, watched: int, events: bv16, cb: Option<Cb>)
      modifies this`pollEntries, this`fdEntries, this`gen
      ensures pollEntries == EnrolledPoll(old(pollEntries), old(fdEntries), old(gen), k, watched, events)
      ensures fdEntries == EnrolledFds(old(pollEntries), old(fdEntries), old(gen), k, watched, cb)
      ensures gen == if CtxOf(old(fdEntries), k).index.None? then old(gen) + 1 else old(gen)
    {
      var ctx := CtxOf(fdEntries, k).(fd := watched, cb := cb, active := true);
      if ctx.index.None? {
        var index := AddPollEntry(watched, k, events);
        ctx := ctx.(index := Some(index), gen := pollEntries[index].gen);
      } else {
        SetPollEntry(ctx.index.value, watched, events);
      }
      fdEntries := SetCtx(fdEntries, k, ctx);
    }

    /** The common part of rem_read and rem_write: the slot goes, then the context. */
    method Detach(k: Key, index: nat)
      requires index < |pollEntries|
      modifies this`pollEntries, this`fdEntries
      ensures pollEntries == SwapRemoved(old(pollEntries), index)
      ensures fdEntries == Detached(old(pollEntries), old(fdEntries), k, index)
    {
      RemovePollEntryByIndex(index);
      fdEntries := SetCtx(fdEntries, k, Reset(CtxOf(fdEntries, k)));
    }

    // ---- add, rem, req -------------------------------------------------------------

    /** The fd is polled for the given events, with the given callback. */
    method AddRead(fd: nat, events: bv16, cb: Option<Cb>) returns (ok: bool)
      requires Valid()
      modifies this
      ensures Valid() && ok && spec == Apply(old(spec), Op.AddRead(fd, events, cb))
      ensures Registered(old(spec), spec, Key(fd, Read), events, cb) && OthersSame(old(spec), spec, Key(fd, Read))
      ensures Polls(pollEntries, Key(fd, Read), fd, events)
    {
      ApplyKeeps(spec, Op.AddRead(fd, events, cb));
      AddReadEffect(spec, fd, events, cb);
      Register(Key(fd, Read), fd, events, cb);
      PolledForWhatItAsks(pollEntries, fdEntries, spec, Key(fd, Read));
      ok := true;
    }

    /** The read interest is gone, and so is its slot. */
    method RemRead(fd: nat) returns (ok: bool)
      requires Valid()
      modifies this
      ensures Valid() && ok == (fd in old(spec).known) && spec == Apply(old(spec), Op.RemRead(fd))
      ensures Key(fd, Read) !in spec.regs && OthersSame(old(spec), spec, Key(fd, Read))
      ensures forall i :: 0 <= i < |pollEntries| ==> pollEntries[i].key != Some(Key(fd, Read))
      ensures openDups == old(openDups)
    {
      ApplyKeeps(spec, Op.RemRead(fd));
      RemoveEffect(spec, Key(fd, Read));
      RemoveCloses(spec, Key(fd, Read));
      ok := Remove(Key(fd, Read));
      PolledForWhatItAsks(pollEntries, fdEntries, spec, Key(fd, Read));
    }

    /** The duplicate is polled for nothing yet, with the given callback. */
    method AddWrite(fd: nat, cb: Option<Cb>, dup: Option<nat>) returns (ok: bool)
      requires Valid()
      modifies this
      ensures Valid() && spec == Apply(old(spec), Op.AddWrite(fd, cb, dup))
      ensures ok <==> Key(fd, Write) in old(spec).regs || DupOutcome(old(spec), dup).Some?
      ensures WriteAdded(old(spec), spec, fd, cb, ok)
      ensures ok ==> Polls(pollEntries, Key(fd, Write), Descriptor(spec, Key(fd, Write)), 0)
    {
      ApplyKeeps(spec, Op.AddWrite(fd, cb, dup));
      AddWriteOutcome(spec, fd, cb, dup);
      ok := RegisterWriter(fd, cb, dup);
      PolledForWhatItAsks(pollEntries, fdEntries, spec, Key(fd, Write));
    }

    /** The write interest is gone, and so are its slot and its duplicate. */
    method RemWrite(fd: nat) returns (ok: bool)
      requires Valid()
      modifies this
      ensures Valid() && ok == (fd in old(spec).known) && spec == Apply(old(spec), Op.RemWrite(fd))
      ensures Key(fd, Write) !in spec.regs && OthersSame(old(spec), spec, Key(fd, Write))
      ensures fd in old(spec).dups ==> openDups == old(openDups) - {old(spec).dups[fd]}
      ensures forall i :: 0 <= i < |pollEntries| ==> pollEntries[i].key != Some(Key(fd, Write))
    {
      ApplyKeeps(spec, Op.RemWrite(fd));
      RemoveEffect(spec, Key(fd, Write));
      RemoveCloses(spec, Key(fd, Write));
      ok := Remove(Key(fd, Write));
      PolledForWhatItAsks(pollEntries, fdEntries, spec, Key(fd, Write));
    }

    /** The duplicate is polled for the given events; every other slot is as it was. */
    method ReqWrite(fd: nat, events: bv16) returns (ok: bool)
      requires Valid()
      modifies this
      ensures Valid() && ok == (Key(fd, Write) in old(spec).regs)
      ensures spec == Apply(old(spec), Op.ReqWrite(fd, events))
      ensures OthersSame(old(spec), spec, Key(fd, Write))
      ensures ok ==> var k := Key(fd, Write);
                     && k in spec.regs && spec.regs[k] == old(spec).regs[k].(events := events)
                     && Polls(pollEntries, k, Descriptor(spec, k), events)
      ensures |pollEntries| == |old(pollEntries)|
      ensures forall i :: 0 <= i < |pollEntries| && pollEntries[i].key != Some(Key(fd, Write))
                ==> pollEntries[i] == old(pollEntries)[i]
    {
      ApplyKeeps(spec, Op.ReqWrite(fd, events));
      ReqWriteEffect(spec, fd, events);
      ok := Arm(fd, events);
      PolledForWhatItAsks(pollEntries, fdEntries, spec, Key(fd, Write));
    }

    method Register(k: Key, watched: int, events: bv16, cb: Option<Cb>)
      requires Shape() && watched == Descriptor(spec, k) != -1
      modifies this
      ensures Shape() && spec == Interests.Register(old(spec), k, events, cb)
    {
      EnrollCoupled(pollEntries, fdEntries, spec, k, events, cb);
      Enroll(k, watched, events, cb);
      spec := Interests.Register(spec, k, events, cb);
    }

    /** close: the descriptor is open, so nothing is closed twice. */
    method CloseDup(d: nat)
      requires d in openDups
      modifies this`openDups
      ensures openDups == old(openDups) - {d}
    {
      openDups := openDups - {d};
    }

    /** An active interest goes, and with a write interest its duplicate. */
    method DropInterest(k: Key, index: nat)
      requires Shape() && k in spec.regs && CtxOf(fdEntries, k).index == Some(index)
      requires k.kind.Write? ==> CtxOf(fdEntries, k).fd in openDups
      modifies this
      ensures Shape() && spec == Drop(old(spec), k)
    {
      DropCoupled(pollEntries, fdEntries, spec, k, index);
      if k.kind.Write? {
        CloseDup(CtxOf(fdEntries, k).fd);
      }
      Detach(k, index);
      spec := Drop(spec, k);
    }

    /** rem_read and rem_write differ only in the duplicate. */
    method Remove(k: Key) returns (ok: bool)
      requires Valid()
      modifies this
      ensures Shape() && ok == (k.fd in old(spec).known) && spec == Unregister(old(spec), k)
    {
      if k.fd !in fdEntries {
        return false;
      }
      var ctx := CtxOf(fdEntries, k);
      if ctx.active && ctx.fd != -1 {
        DuplicateIsOpen(pollEntries, fdEntries, spec, k);
        DropInterest(k, ctx.index.value);
      }
      ListIfInactive(k.fd);
      ok := true;
    }

    method ListIfInactive(fd: nat)
      requires Shape() && fd in spec.known
      modifies this`pendingCleanup, this`spec
      ensures Shape()
      ensures spec == if Active(old(spec).regs, fd) then old(spec)
                      else old(spec).(cleanup := old(spec).cleanup + [fd])
    {
      EntryActive(pollEntries, fdEntries, spec, fd);
      if !fdEntries[fd].read.active && !fdEntries[fd].write.active {
        pendingCleanup := pendingCleanup + [fd];
        spec := spec.(cleanup := spec.cleanup + [fd]);
      }
    }

    /** A failed dup leaves the entry behind. */
    method LeaveStray(fd: nat)
      requires Shape() && Key(fd, Write) !in spec.regs
      modifies this
      ensures Shape() && spec == RegisterWrite(old(spec), fd, None, None)
    {
      StrayCoupled(pollEntries, fdEntries, spec, fd);
      fdEntries := fdEntries[fd := EntryOf(fdEntries, fd)];
      spec := RegisterWrite(spec, fd, None, None);
    }

    /** dup succeeded. */
    method KeepDuplicate(fd: nat, d: nat)
      requires Shape() && Key(fd, Write) !in spec.regs
      modifies this`openDups, this`spec
      ensures Shape() && spec == old(spec).(dups := old(spec).dups[fd := d], open := old(spec).open + {d})
    {
      DuplicateCoupled(pollEntries, fdEntries, spec, fd, d);
      openDups := openDups + {d};
      spec := spec.(dups := spec.dups[fd := d], open := spec.open + {d});
    }

    method RegisterWriter(fd: nat, cb: Option<Cb>, dup: Option<nat>) returns (ok: bool)
      requires Shape()
      modifies this
      ensures Shape() && spec == Apply(old(spec), Op.AddWrite(fd, cb, dup))
      ensures ok <==> Key(fd, Write) in old(spec).regs || DupOutcome(old(spec), dup).Some?
    {
      var k := Key(fd, Write);
      assert EntryOf(fdEntries, fd).write == CtxOf(fdEntries, k);
      var watched := EntryOf(fdEntries, fd).write.fd;
      if watched == -1 {
        if dup.None? || dup.value in openDups {
          LeaveStray(fd);
          return false;
        }
        watched := dup.value;
        KeepDuplicate(fd, watched);
      }
      Register(k, watched, 0, cb);
      ok := true;
    }

    method Arm(fd: nat, events: bv16) returns (ok: bool)
      requires Shape()
      modifies this
      ensures Shape() && ok == (Key(fd, Write) in old(spec).regs) && spec == Request(old(spec), fd, events)
      ensures |pollEntries| == |old(pollEntries)|
      ensures forall i :: 0 <= i < |pollEntries| && pollEntries[i].key != Some(Key(fd, Write))
                ==> pollEntries[i] == old(pollEntries)[i]
    {
      assert EntryOf(fdEntries, fd).write == CtxOf(fdEntries, Key(fd, Write));
      if fd !in fdEntries {
        return false;
      }
      var ctx := fdEntries[fd].write;
      if !ctx.active || ctx.fd == -1 {
        return false;
      }
      SetEventsCoupled(pollEntries, fdEntries, spec, Key(fd, Write), events);
      SetPollEvents(ctx.index.value, events);
      spec := Request(spec, fd, events);
      ok := true;
    }

    // ---- One pass of run -----------------------------------------------------------

    method Perform(op: Op)
      requires Valid()
      modifies this
      ensures Valid() && spec == Apply(old(spec), op)
    {
      var ok;
      match op
      case AddRead(fd, events, cb) => ok := AddRead(fd, events, cb);
      case RemRead(fd) => ok := RemRead(fd);
      case AddWrite(fd, cb, dup) => ok := AddWrite(fd, cb, dup);
      case RemWrite(fd) => ok := RemWrite(fd);
      case ReqWrite(fd, events) => ok := ReqWrite(fd, events);
    }

    /** What a callback does. */
    method PerformAll(ops: seq<Op>)
      requires Valid()
      modifies this
      ensures Valid() && spec == ApplyAll(old(spec), ops)
    {
      for i := 0 to |ops|
        invariant Valid() && spec == ApplyAll(old(spec), ops[..i])
      {
        assert ops[..i + 1][..i] == ops[..i];
        Perform(ops[i]);
      }
      assert ops[..|ops|] == ops;
    }

    /** A reported slot: the callback runs only for the registration that was polled, and a
        write interest is disarmed first. */
    method DispatchSlot(item: PollEntry, revents: bv16, ops: seq<Op>)
      requires Valid()
      modifies this
      ensures Valid() && spec == DispatchOne(old(spec), ItemOf(item), revents, ops)
    {
      LiveInTable(pollEntries, fdEntries, spec, ItemOf(item));
      if revents == 0 || item.key.None? || item.key.value.fd !in fdEntries {
        return;
      }
      var ctx := CtxOf(fdEntries, item.key.value);
      if ctx.active && ctx.gen == item.gen && ctx.cb.Some? {
        FireKeeps(spec, ItemOf(item));
        Invoke(item, ctx.index.value);
        PerformAll(ops);
      }
    }

    /** Up to the call of the callback. */
    method Invoke(item: PollEntry, index: nat)
      requires Shape() && Live(spec, ItemOf(item)) && CtxOf(fdEntries, item.key.value).index == Some(index)
      modifies this`pollEntries, this`spec
      ensures Shape() && spec == Fire(old(spec), ItemOf(item))
    {
      FireCoupled(pollEntries, fdEntries, spec, ItemOf(item));
      if item.key.value.kind.Write? {
        SetPollEvents(index, 0);
      }
      spec := Fire(spec, ItemOf(item));
    }

    /** The dispatch loop over the snapshot taken before poll. */
    method DispatchReady(dispatch: seq<PollEntry>, ghost items: seq<Item>, revents: seq<bv16>, behave: nat -> seq<Op>)
      requires Valid() && |revents| == |dispatch| == |items|
      requires forall i :: 0 <= i < |dispatch| ==> items[i] == ItemOf(dispatch[i])
      modifies this
      ensures Valid() && spec == Dispatch(old(spec), items, revents, behave, |revents|)
    {
      for i := 0 to |dispatch|
        invariant Valid() && spec == Dispatch(old(spec), items, revents, behave, i)
      {
        DispatchNext(dispatch[i], items, revents, behave, i, old(spec));
      }
    }

    method DispatchNext(item: PollEntry, ghost items: seq<Item>, revents: seq<bv16>, behave: nat -> seq<Op>, i: nat,
                        ghost start: Table)
      requires Valid() && i < |revents| == |items| && items[i] == ItemOf(item)
      requires spec == Dispatch(start, items, revents, behave, i)
      modifies this
      ensures Valid() && spec == Dispatch(start, items, revents, behave, i + 1)
    {
      ghost var before := spec;
      DispatchSlot(item, revents[i], behave(i));
      DispatchStep(start, items, revents, behave, i, before, spec);
    }

    /** Erases the entries left without an active interest; none of them holds a duplicate. */
    method EraseEntries()
      requires Shape()
      modifies this
      ensures Shape() && spec == Cleanup(old(spec))
    {
      for i := 0 to |pendingCleanup|
        invariant pollEntries == old(pollEntries) && pendingCleanup == old(pendingCleanup)
        invariant gen == old(gen) && openDups == old(openDups) && spec == old(spec)
        invariant fdEntries == ErasedUpTo(old(fdEntries), pendingCleanup, i)
      {
        var fd := pendingCleanup[i];
        if fd in fdEntries && !fdEntries[fd].read.active && !fdEntries[fd].write.active {
          NoDuplicateLeft(old(pollEntries), old(fdEntries), old(spec), fd);
          assert fdEntries[fd].write.fd == -1;
          fdEntries := fdEntries - {fd};
        }
      }
      CleanupCoupled(pollEntries, old(fdEntries), spec);
      spec := Cleanup(spec);
      pendingCleanup := [];
    }

    method CleanUp()
      requires Valid()
      modifies this
      ensures Valid() && spec == Cleanup(old(spec))
    {
      CleanupExact(spec);
      EraseEntries();
    }

    /** The table's part of one pass of run: fd callbacks, posted callbacks and queue handlers,
        cleanup, timers.  The polled snapshot held every registration exactly once. */
    method Pass(revents: seq<bv16>, behave: nat -> seq<Op>, posted: seq<Op>, timers: seq<Op>)
      requires Valid() && |revents| == |pollEntries|
      modifies this
      ensures Valid()
      ensures var turn := Turn(Items(old(pollEntries)), revents, behave, posted, timers);
              Possible(old(spec), turn) && spec == Interests.Pass(old(spec), turn)
      ensures forall fd :: fd in fdEntries ==> InUse(spec, timers, fd)
    {
      ghost var turn := Turn(Items(pollEntries), revents, behave, posted, timers);
      ItemsAreSnapshot(pollEntries, fdEntries, spec);
      DispatchReady(pollEntries, Items(pollEntries), revents, behave);
      PerformAll(posted);
      CleanUp();
      PerformAll(timers);
      forall fd | fd in fdEntries ensures InUse(spec, timers, fd) {
        PassTidies(old(spec), turn, fd);
      }
    }
  }
}
