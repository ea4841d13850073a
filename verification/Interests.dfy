/** The read and write interests of a poll reactor, as its callers see them: a map from
    (fd, kind) to registrations, without the poll vector and its indices.

    A registration is identified by its generation.  History is kept in an event log, so
    that what a whole run did can be stated. */
module Interests {
  import opened Wrappers

  type Cb = nat

  datatype Kind = Read | Write
  datatype Key = Key(fd: nat, kind: Kind)

  datatype Reg = Reg(gen: nat, events: bv16, cb: Option<Cb>)

  datatype Event =
    | Removed(gen: nat)
    | Requested(gen: nat)                // req_write
    | Unasked(kind: Kind, gen: nat)      // invoked although the polled slot asked for nothing
    | Called(gen: nat, cb: Cb)           // which callback is invoked
    | Fired(kind: Kind, gen: nat)        // the callback was invoked

  /** `known`: fds with an entry.  `dups`: the duplicated descriptor behind each write
      interest.  `open`: descriptors obtained from dup and not closed.  `strays`: fds whose
      entry was left inactive by a failed dup. */
  datatype Table = Table(regs: map<Key, Reg>, known: set<nat>, cleanup: seq<nat>, gen: nat,
                         dups: map<nat, nat>, open: set<nat>, strays: set<nat>, log: seq<Event>)

  datatype Op =
    | AddRead(fd: nat, events: bv16, cb: Option<Cb>)
    | RemRead(fd: nat)
    | AddWrite(fd: nat, cb: Option<Cb>, dup: Option<nat>)
    | RemWrite(fd: nat)
    | ReqWrite(fd: nat, events: bv16)

  const EMPTY: Table := Table(map[], {}, [], 0, map[], {}, {}, [])

  predicate Active(regs: map<Key, Reg>, fd: nat) {
    Key(fd, Read) in regs || Key(fd, Write) in regs
  }

  /** A new registration gets a new generation; adding again keeps the old one. */
  function Register(t: Table, k: Key, events: bv16, cb: Option<Cb>): Table {
    var gen := if k in t.regs then t.regs[k].gen else t.gen + 1;
    t.(regs := t.regs[k := Reg(gen, events, cb)], known := t.known + {k.fd},
       gen := if k in t.regs then t.gen else t.gen + 1, strays := t.strays - {k.fd})
  }

  /** dup fails, or yields a descriptor that is not open. */
  function DupOutcome(t: Table, d: Option<nat>): Option<nat> {
    if d.Some? && d.value !in t.open then d else None
  }

  function RegisterWrite(t: Table, fd: nat, cb: Option<Cb>, dup: Option<nat>): Table {
    if Key(fd, Write) in t.regs then Register(t, Key(fd, Write), 0, cb)
    else
      match DupOutcome(t, dup)
      case None => t.(known := t.known + {fd}, strays := if Active(t.regs, fd) then t.strays else t.strays + {fd})
      case Some(d) => Register(t.(dups := t.dups[fd := d], open := t.open + {d}), Key(fd, Write), 0, cb)
  }

  /** A write interest takes its descriptor with it. */
  function Drop(t: Table, k: Key): Table
    requires k in t.regs
  {
    var t' := t.(regs := t.regs - {k}, log := t.log + [Removed(t.regs[k].gen)]);
    if k.kind.Write? && k.fd in t.dups
    then t'.(dups := t.dups - {k.fd}, open := t.open - {t.dups[k.fd]}) else t'
  }

  function Unregister(t: Table, k: Key): Table {
    if k.fd !in t.known then t
    else
      var t' := if k in t.regs then Drop(t, k) else t;
      if Active(t'.regs, k.fd) then t' else t'.(cleanup := t'.cleanup + [k.fd])
  }

  function Logged(t: Table, e: Event): Table {
    t.(log := t.log + [e])
  }

  function SetEvents(t: Table, k: Key, events: bv16): Table
    requires k in t.regs
  {
    t.(regs := t.regs[k := t.regs[k].(events := events)])
  }

  function Request(t: Table, fd: nat, events: bv16): Table {
    var k := Key(fd, Write);
    if k !in t.regs then t else Logged(SetEvents(t, k, events), Requested(t.regs[k].gen))
  }

  function Apply(t: Table, op: Op): Table {
    match op
    case AddRead(fd, events, cb) => Register(t, Key(fd, Read), events, cb)
    case RemRead(fd) => Unregister(t, Key(fd, Read))
    case AddWrite(fd, cb, dup) => RegisterWrite(t, fd, cb, dup)
    case RemWrite(fd) => Unregister(t, Key(fd, Write))
    case ReqWrite(fd, events) => Request(t, fd, events)
  }

  function ApplyAll(t: Table, ops: seq<Op>): Table
    decreases |ops|
  {
    if ops == [] then t else Apply(ApplyAll(t, ops[..|ops| - 1]), ops[|ops| - 1])
  }

  // ---- A pass of the reactor -----------------------------------------------------

  /** One slot of the polled snapshot; no key: the wake-up pipe. */
  datatype Item = Item(key: Option<Key>, gen: nat, events: bv16)

  /** The slot's registration is still there and has a callback. */
  predicate Live(t: Table, item: Item) {
    && item.key.Some? && item.key.value in t.regs
    && t.regs[item.key.value].gen == item.gen && t.regs[item.key.value].cb.Some?
  }

  function Noted(t: Table, item: Item): Table
    requires item.key.Some?
  {
    if item.events == 0 then Logged(t, Unasked(item.key.value.kind, item.gen)) else t
  }

  /** The registration's callback is about to run: a write interest is disarmed first. */
  function Fire(t: Table, item: Item): Table
    requires Live(t, item)
  {
    var k := item.key.value;
    var disarmed := if k.kind.Write? then SetEvents(t, k, 0) else t;
    Logged(Logged(Noted(disarmed, item), Called(item.gen, t.regs[k].cb.value)), Fired(k.kind, item.gen))
  }

  /** What the callback does to the table is an arbitrary sequence of operations. */
  function DispatchOne(t: Table, item: Item, revents: bv16, ops: seq<Op>): Table {
    if revents != 0 && Live(t, item) then ApplyAll(Fire(t, item), ops) else t
  }

  /** The first n slots, in order; callback i performs behave(i). */
  function Dispatch(t: Table, snapshot: seq<Item>, revents: seq<bv16>, behave: nat -> seq<Op>, n: nat): Table
    requires n <= |snapshot| == |revents|
  {
    if n == 0 then t
    else DispatchOne(Dispatch(t, snapshot, revents, behave, n - 1), snapshot[n - 1], revents[n - 1], behave(n - 1))
  }

  function Cleanup(t: Table): Table {
    t.(known := (set fd | fd in t.known && (Active(t.regs, fd) || fd !in t.cleanup)),
       strays := (set fd | fd in t.strays && fd !in t.cleanup), cleanup := [])
  }

  /** One pass: what poll reported, what the fd callbacks do, what the wake-up callbacks
      and queue handlers do, and what the timers do after cleanup. */
  datatype Turn = Turn(snapshot: seq<Item>, revents: seq<bv16>, behave: nat -> seq<Op>,
                       posted: seq<Op>, timers: seq<Op>)

  /** The snapshot holds the wake-up pipe first, then every registration once. */
  ghost predicate SnapshotOf(t: Table, snapshot: seq<Item>) {
    && |snapshot| >= 1 && snapshot[0].key == None
    && (forall i :: 1 <= i < |snapshot| ==>
          && snapshot[i].key.Some? && snapshot[i].key.value in t.regs
          && t.regs[snapshot[i].key.value].gen == snapshot[i].gen
          && t.regs[snapshot[i].key.value].events == snapshot[i].events)
    && (forall i, j :: 1 <= i < j < |snapshot| ==> snapshot[i].key != snapshot[j].key)
    && (forall k :: k in t.regs ==> exists i :: 1 <= i < |snapshot| && snapshot[i].key == Some(k))
  }

  ghost predicate Possible(t: Table, turn: Turn) {
    SnapshotOf(t, turn.snapshot) && |turn.revents| == |turn.snapshot|
  }

  function Dispatched(t: Table, turn: Turn): Table
    requires |turn.revents| == |turn.snapshot|
  {
    Dispatch(t, turn.snapshot, turn.revents, turn.behave, |turn.snapshot|)
  }

  function Pass(t: Table, turn: Turn): Table
    requires |turn.revents| == |turn.snapshot|
  {
    ApplyAll(Cleanup(ApplyAll(Dispatched(t, turn), turn.posted)), turn.timers)
  }

  ghost predicate Playable(t: Table, turns: seq<Turn>)
    decreases |turns|
  {
    turns == [] || (Possible(t, turns[0]) && Playable(Pass(t, turns[0]), turns[1..]))
  }

  ghost function Play(t: Table, turns: seq<Turn>): Table
    requires Playable(t, turns)
    decreases |turns|
  {
    if turns == [] then t else Play(Pass(t, turns[0]), turns[1..])
  }

  // ---- Invariant ---------------------------------------------------------------------

  ghost predicate RegsInv(t: Table) {
    && (forall k :: k in t.regs ==> k.fd in t.known && t.regs[k].gen <= t.gen)
    && (forall k, l :: k in t.regs && l in t.regs && t.regs[k].gen == t.regs[l].gen ==> k == l)
  }

  /** The open duplicates are exactly those of the write interests, one each. */
  ghost predicate DupsInv(t: Table) {
    && (forall fd :: fd in t.dups <==> Key(fd, Write) in t.regs)
    && (forall fd, gd :: fd in t.dups && gd in t.dups && t.dups[fd] == t.dups[gd] ==> fd == gd)
    && (forall fd :: fd in t.dups ==> t.dups[fd] in t.open)
    && (forall d :: d in t.open ==> exists fd :: fd in t.dups && t.dups[fd] == d)
  }

  /** An inactive entry waits for cleanup, or was left by a failed dup. */
  ghost predicate KnownInv(t: Table) {
    forall fd :: fd in t.known && !Active(t.regs, fd) ==> fd in t.cleanup || fd in t.strays
  }

  /** Generations are never reused, and nothing fires after its removal. */
  ghost predicate LogInv(t: Table) {
    && (forall k :: k in t.regs ==> Removed(t.regs[k].gen) !in t.log)
    && (forall g: nat :: Removed(g) in t.log ==> g <= t.gen)
    && (forall a, b, kind :: 0 <= a < b < |t.log| && t.log[a].Removed? ==> t.log[b] != Fired(kind, t.log[a].gen))
  }

  ghost predicate TableInv(t: Table) {
    RegsInv(t) && DupsInv(t) && KnownInv(t) && LogInv(t)
  }

  ghost function Count(t: Table, e: Event): nat {
    multiset(t.log)[e]
  }

  /** The write interest with generation g asks poll for something. */
  ghost predicate Armed(t: Table, g: nat) {
    exists fd :: Key(fd, Write) in t.regs && t.regs[Key(fd, Write)].gen == g && t.regs[Key(fd, Write)].events != 0
  }

  /** From slot i on, the snapshot holds the write interest g with something asked for. */
  ghost predicate SnapArmed(snapshot: seq<Item>, i: nat, g: nat) {
    exists j :: i <= j < |snapshot| && snapshot[j].key.Some? && snapshot[j].key.value.kind.Write?
                && snapshot[j].gen == g && snapshot[j].events != 0
  }

  /** Every invocation of a write callback is paid for by a request or happened
      unasked, and an armed interest holds one payment in reserve. */
  ghost predicate Paid(t: Table, snapshot: seq<Item>, i: nat) {
    forall g: nat ::
      Count(t, Fired(Write, g)) + (if Armed(t, g) || SnapArmed(snapshot, i, g) then 1 else 0)
      <= Count(t, Requested(g)) + Count(t, Unasked(Write, g))
  }

  ghost predicate Sound(t: Table, snapshot: seq<Item>, i: nat) {
    TableInv(t) && Paid(t, snapshot, i)
  }
}
