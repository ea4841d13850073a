/** What each operation, each invocation and each cleanup does to the interests of its callers,
    and what stands from then on until the next thing that concerns the same interest. */
module InterestsEffects {
  import opened Wrappers
  import opened Interests
  import opened InterestsTheorems

  /** The interest k is the same in both tables. */
  predicate Same(t: Table, t': Table, k: Key) {
    (k in t'.regs <==> k in t.regs) && (k in t.regs ==> t'.regs[k] == t.regs[k])
  }

  ghost predicate OthersSame(t: Table, t': Table, k: Key) {
    forall l :: l != k ==> Same(t, t', l)
  }

  /** Its generation is kept if it was registered, and new otherwise. */
  predicate Registered(t: Table, t': Table, k: Key, events: bv16, cb: Option<Cb>) {
    && k in t'.regs && t'.regs[k].events == events && t'.regs[k].cb == cb && k.fd in t'.known
    && t'.regs[k].gen == if k in t.regs then t.regs[k].gen else t.gen + 1
  }

  // ---- Single operations -----------------------------------------------------------------

  lemma AddReadEffect(t: Table, fd: nat, events: bv16, cb: Option<Cb>)
    ensures var t' := Apply(t, AddRead(fd, events, cb));
            && Registered(t, t', Key(fd, Read), events, cb) && OthersSame(t, t', Key(fd, Read))
            && t'.dups == t.dups && t'.open == t.open && t'.cleanup == t.cleanup && t'.strays <= t.strays
  {
  }

  /** A write interest starts, and starts again, with nothing asked for; only a first one needs a
      duplicate, and without one nothing is registered. */
  lemma AddWriteEffect(t: Table, fd: nat, cb: Option<Cb>, dup: Option<nat>)
    ensures var k := Key(fd, Write);
            var t' := Apply(t, AddWrite(fd, cb, dup));
            && OthersSame(t, t', k) && t'.cleanup == t.cleanup
            && if k in t.regs then Registered(t, t', k, 0, cb) && t'.dups == t.dups && t'.open == t.open
               else if dup.Some? && dup.value !in t.open then
                 Registered(t, t', k, 0, cb) && t'.dups == t.dups[fd := dup.value] && t'.open == t.open + {dup.value}
               else t'.regs == t.regs && t'.dups == t.dups && t'.open == t.open
                    && t'.known == t.known + {fd} && (Active(t.regs, fd) || fd in t'.strays)
  {
  }

  /** What add_write did, by its answer. */
  ghost predicate WriteAdded(t: Table, t': Table, fd: nat, cb: Option<Cb>, ok: bool) {
    && OthersSame(t, t', Key(fd, Write))
    && (ok ==> Registered(t, t', Key(fd, Write), 0, cb))
    && (!ok ==> t'.regs == t.regs && t'.open == t.open)
  }

  lemma AddWriteOutcome(t: Table, fd: nat, cb: Option<Cb>, dup: Option<nat>)
    ensures var t' := Apply(t, AddWrite(fd, cb, dup));
            WriteAdded(t, t', fd, cb, Key(fd, Write) in t.regs || DupOutcome(t, dup).Some?)
  {
    AddWriteEffect(t, fd, cb, dup);
  }

  /** The interest is gone, and its entry is listed for cleanup when no other is left. */
  lemma RemoveEffect(t: Table, k: Key)
    requires RegsInv(t)
    ensures var t' := Apply(t, if k.kind.Read? then RemRead(k.fd) else RemWrite(k.fd));
            && k !in t'.regs && OthersSame(t, t', k) && t'.known == t.known && t'.strays == t.strays
            && t'.log == (if k in t.regs then t.log + [Removed(t.regs[k].gen)] else t.log)
            && t'.cleanup == if k.fd in t.known && !Active(t'.regs, k.fd) then t.cleanup + [k.fd] else t.cleanup
  {
    assert k == Key(k.fd, k.kind);
  }

  /** rem_write closes the duplicate of a write interest, and rem_read none. */
  lemma RemoveCloses(t: Table, k: Key)
    requires RegsInv(t) && DupsInv(t)
    ensures var t' := Apply(t, if k.kind.Read? then RemRead(k.fd) else RemWrite(k.fd));
            if k.kind.Write? && k in t.regs
            then k.fd in t.dups && t'.open == t.open - {t.dups[k.fd]} && t'.dups == t.dups - {k.fd}
            else t'.open == t.open && t'.dups == t.dups
  {
    assert k == Key(k.fd, k.kind);
  }

  /** A write interest asks for exactly what was requested. */
  lemma ReqWriteEffect(t: Table, fd: nat, events: bv16)
    ensures var k := Key(fd, Write);
            var t' := Apply(t, ReqWrite(fd, events));
            && OthersSame(t, t', k)
            && (k in t'.regs <==> k in t.regs)
            && (k in t.regs ==> t'.regs[k].events == events && t'.regs[k].cb == t.regs[k].cb
                                && t'.regs[k].gen == t.regs[k].gen)
            && t'.known == t.known && t'.dups == t.dups && t'.open == t.open && t'.cleanup == t.cleanup
  {
  }

  /** Being invoked calls the callback the interest has, disarms a write interest and changes nothing
      else; a read interest keeps asking. */
  lemma FireEffect(t: Table, item: Item)
    requires Live(t, item)
    ensures var k := item.key.value;
            var t' := Fire(t, item);
            && OthersSame(t, t', k) && k in t'.regs
            && t'.regs[k].gen == t.regs[k].gen && t'.regs[k].cb == t.regs[k].cb
            && t'.regs[k].events == (if k.kind.Write? then 0 else t.regs[k].events)
            && t'.known == t.known && t'.dups == t.dups && t'.open == t.open && t'.cleanup == t.cleanup
            && |t'.log| >= |t.log| + 2 && t.log <= t'.log
            && t'.log[|t'.log| - 2] == Called(t.regs[k].gen, t.regs[k].cb.value)
            && t'.log[|t'.log| - 1] == Fired(k.kind, t.regs[k].gen)
  {
  }

  // ---- What stands ---------------------------------------------------------------------

  /** All that happens to a table. */
  datatype Act = Do(op: Op) | Invoke(item: Item) | Tidy

  function Perform(t: Table, act: Act): Table {
    match act
    case Do(op) => Apply(t, op)
    case Invoke(item) => if Live(t, item) then Fire(t, item) else t
    case Tidy => Cleanup(t)
  }

  function PerformAll(t: Table, acts: seq<Act>): Table
    decreases |acts|
  {
    if acts == [] then t else Perform(PerformAll(t, acts[..|acts| - 1]), acts[|acts| - 1])
  }

  function KeyOf(op: Op): Key {
    Key(op.fd, if op.AddRead? || op.RemRead? then Read else Write)
  }

  /** The act is about the interest k: an operation on it, or an invocation that disarms it. */
  predicate Concerns(act: Act, k: Key) {
    match act
    case Do(op) => KeyOf(op) == k
    case Invoke(item) => k.kind.Write? && item.key == Some(k)
    case Tidy => false
  }

  lemma RemovalFrame(t: Table, k: Key, l: Key)
    requires l != k
    ensures Same(t, Unregister(t, k), l)
  {
  }

  lemma OpFrame(t: Table, op: Op, k: Key)
    requires KeyOf(op) != k
    ensures Same(t, Apply(t, op), k)
  {
    match op
    case AddRead(fd, events, cb) => AddReadEffect(t, fd, events, cb);
    case RemRead(fd) => RemovalFrame(t, Key(fd, Read), k);
    case AddWrite(fd, cb, dup) => AddWriteEffect(t, fd, cb, dup);
    case RemWrite(fd) => RemovalFrame(t, Key(fd, Write), k);
    case ReqWrite(fd, events) => ReqWriteEffect(t, fd, events);
  }

  lemma ActFrame(t: Table, act: Act, k: Key)
    requires !Concerns(act, k)
    ensures Same(t, Perform(t, act), k)
  {
    match act
    case Do(op) => OpFrame(t, op, k);
    case Invoke(item) =>
      if Live(t, item) { FireEffect(t, item); }
    case Tidy =>
  }

  ghost predicate NoneConcerns(acts: seq<Act>, i: nat, k: Key) {
    forall j :: i <= j < |acts| ==> !Concerns(acts[j], k)
  }

  /** An interest stands as it is until something concerns it. */
  lemma {:induction false} Stands(t: Table, acts: seq<Act>, i: nat, k: Key)
    requires i <= |acts| && NoneConcerns(acts, i, k)
    ensures Same(PerformAll(t, acts[..i]), PerformAll(t, acts), k)
    decreases |acts|
  {
    if i == |acts| {
      assert acts[..i] == acts;
    } else {
      var n := |acts| - 1;
      Stands(t, acts[..n], i, k);
      assert acts[..n][..i] == acts[..i];
      ActFrame(PerformAll(t, acts[..n]), acts[n], k);
    }
  }

  lemma PrefixStep(t: Table, acts: seq<Act>, i: nat)
    requires i < |acts|
    ensures PerformAll(t, acts[..i + 1]) == Perform(PerformAll(t, acts[..i]), acts[i])
  {
    assert acts[..i + 1][..i] == acts[..i];
  }

  /** Whatever else happens, a write interest that was requested, and since then neither invoked nor
      added, removed or requested again, asks for what was last requested. */
  lemma RequestStands(t: Table, acts: seq<Act>, i: nat, fd: nat, events: bv16)
    requires i < |acts| && acts[i] == Do(ReqWrite(fd, events)) && NoneConcerns(acts, i + 1, Key(fd, Write))
    requires Key(fd, Write) in PerformAll(t, acts[..i]).regs
    ensures var k := Key(fd, Write);
            && k in PerformAll(t, acts).regs
            && PerformAll(t, acts).regs[k] == PerformAll(t, acts[..i]).regs[k].(events := events)
  {
    PrefixStep(t, acts, i);
    ReqWriteEffect(PerformAll(t, acts[..i]), fd, events);
    Stands(t, acts, i + 1, Key(fd, Write));
  }

  /** A read interest keeps asking for what it was added with, and keeps its callback, until it is
      added or removed again, however often it is invoked. */
  lemma ReadStands(t: Table, acts: seq<Act>, i: nat, fd: nat, events: bv16, cb: Option<Cb>)
    requires i < |acts| && acts[i] == Do(AddRead(fd, events, cb)) && NoneConcerns(acts, i + 1, Key(fd, Read))
    ensures var k := Key(fd, Read);
            && k in PerformAll(t, acts).regs
            && PerformAll(t, acts).regs[k].events == events && PerformAll(t, acts).regs[k].cb == cb
  {
    PrefixStep(t, acts, i);
    AddReadEffect(PerformAll(t, acts[..i]), fd, events, cb);
    Stands(t, acts, i + 1, Key(fd, Read));
  }

  /** k is registered in both, as the same registration with the same callback. */
  predicate SameCallback(t: Table, t': Table, k: Key) {
    k in t.regs && k in t'.regs && t'.regs[k].cb == t.regs[k].cb && t'.regs[k].gen == t.regs[k].gen
  }

  /** The act neither adds nor removes k. */
  predicate Leaves(act: Act, k: Key) {
    act.Do? && KeyOf(act.op) == k ==> act.op.ReqWrite?
  }

  lemma LeavesCallback(t: Table, act: Act, k: Key)
    requires k in t.regs && Leaves(act, k)
    ensures SameCallback(t, Perform(t, act), k)
  {
    if !Concerns(act, k) {
      ActFrame(t, act, k);
    } else if act.Do? {
      ReqWriteEffect(t, act.op.fd, act.op.events);
    } else if Live(t, act.item) {
      FireEffect(t, act.item);
    }
  }

  /** An interest keeps its callback until it is added or removed again, whatever is requested and
      invoked. */
  lemma {:induction false} CallbackStands(t: Table, acts: seq<Act>, i: nat, k: Key)
    requires i <= |acts| && k in PerformAll(t, acts[..i]).regs
    requires forall j :: i <= j < |acts| ==> Leaves(acts[j], k)
    ensures SameCallback(PerformAll(t, acts[..i]), PerformAll(t, acts), k)
    decreases |acts|
  {
    if i == |acts| {
      assert acts[..i] == acts;
    } else {
      var n := |acts| - 1;
      assert acts[..n][..i] == acts[..i];
      CallbackStands(t, acts[..n], i, k);
      assert Leaves(acts[n], k);
      LeavesCallback(PerformAll(t, acts[..n]), acts[n], k);
    }
  }

  /** A removed interest stays away until it is added again. */
  lemma RemovalStands(t: Table, acts: seq<Act>, i: nat, k: Key)
    requires i < |acts| && RegsInv(PerformAll(t, acts[..i])) && NoneConcerns(acts, i + 1, k)
    requires acts[i] == Do(if k.kind.Read? then RemRead(k.fd) else RemWrite(k.fd))
    ensures k !in PerformAll(t, acts).regs
  {
    PrefixStep(t, acts, i);
    RemoveEffect(PerformAll(t, acts[..i]), k);
    Stands(t, acts, i + 1, k);
  }

  /** The next snapshot polls every registered interest for what it asks. */
  lemma InNextSnapshot(t: Table, snapshot: seq<Item>, k: Key) returns (j: nat)
    requires SnapshotOf(t, snapshot) && k in t.regs
    ensures 1 <= j < |snapshot| && snapshot[j] == Item(Some(k), t.regs[k].gen, t.regs[k].events)
  {
    j :| 1 <= j < |snapshot| && snapshot[j].key == Some(k);
  }

  /** So poll is asked for what was requested. */
  lemma RequestIsPolled(t: Table, acts: seq<Act>, i: nat, fd: nat, events: bv16, snapshot: seq<Item>) returns (j: nat)
    requires i < |acts| && acts[i] == Do(ReqWrite(fd, events)) && NoneConcerns(acts, i + 1, Key(fd, Write))
    requires Key(fd, Write) in PerformAll(t, acts[..i]).regs && SnapshotOf(PerformAll(t, acts), snapshot)
    ensures 1 <= j < |snapshot| && snapshot[j].key == Some(Key(fd, Write)) && snapshot[j].events == events
  {
    RequestStands(t, acts, i, fd, events);
    j := InNextSnapshot(PerformAll(t, acts), snapshot, Key(fd, Write));
  }

  // ---- Runs are acts --------------------------------------------------------------------

  lemma {:induction false} Append(t: Table, a: seq<Act>, b: seq<Act>)
    ensures PerformAll(t, a + b) == PerformAll(PerformAll(t, a), b)
    decreases |b|
  {
    if b == [] {
      assert a + b == a;
    } else {
      var n := |b| - 1;
      Append(t, a, b[..n]);
      assert (a + b)[..|a + b| - 1] == a + b[..n];
    }
  }

  /** What a callback does, as acts. */
  function OpActs(ops: seq<Op>): (acts: seq<Act>)
    ensures |acts| == |ops| && forall i :: 0 <= i < |ops| ==> acts[i] == Do(ops[i])
  {
    seq(|ops|, i requires 0 <= i < |ops| => Do(ops[i]))
  }

  lemma {:induction false} OpsAreActs(t: Table, ops: seq<Op>)
    ensures PerformAll(t, OpActs(ops)) == ApplyAll(t, ops)
    decreases |ops|
  {
    if ops != [] {
      var n := |ops| - 1;
      OpsAreActs(t, ops[..n]);
      assert OpActs(ops)[..n] == OpActs(ops[..n]);
    }
  }

  /** A slot that is served is invoked, and then its callback does what it does. */
  function SlotActs(before: Table, turn: Turn, j: nat): seq<Act>
    requires j < |turn.snapshot| == |turn.revents|
  {
    if turn.revents[j] != 0 && Live(before, turn.snapshot[j])
    then [Invoke(turn.snapshot[j])] + OpActs(turn.behave(j)) else []
  }

  function DispatchActs(t: Table, turn: Turn, n: nat): seq<Act>
    requires n <= |turn.snapshot| == |turn.revents|
  {
    if n == 0 then []
    else
      var acts := DispatchActs(t, turn, n - 1);
      acts + SlotActs(PerformAll(t, acts), turn, n - 1)
  }

  /** The served slots in the order of the snapshot, each with its callback's operations; then the
      posted operations; then one cleanup; then the timers' operations. */
  function PassActs(t: Table, turn: Turn): seq<Act>
    requires |turn.revents| == |turn.snapshot|
  {
    DispatchActs(t, turn, |turn.snapshot|) + OpActs(turn.posted) + [Tidy] + OpActs(turn.timers)
  }

  lemma SlotIsActs(before: Table, turn: Turn, j: nat)
    requires j < |turn.snapshot| == |turn.revents|
    ensures PerformAll(before, SlotActs(before, turn, j))
            == DispatchOne(before, turn.snapshot[j], turn.revents[j], turn.behave(j))
  {
    var item := turn.snapshot[j];
    if turn.revents[j] != 0 && Live(before, item) {
      OpsAreActs(Fire(before, item), turn.behave(j));
      assert [Invoke(item)][..0] == [];
      Append(before, [Invoke(item)], OpActs(turn.behave(j)));
    }
  }

  lemma NextSlot(t: Table, acts: seq<Act>, before: Table, turn: Turn, j: nat)
    requires j < |turn.snapshot| == |turn.revents| && PerformAll(t, acts) == before
    ensures PerformAll(t, acts + SlotActs(before, turn, j))
            == DispatchOne(before, turn.snapshot[j], turn.revents[j], turn.behave(j))
  {
    SlotIsActs(before, turn, j);
    Append(t, acts, SlotActs(before, turn, j));
  }

  /** The table is the one these acts lead to. */
  predicate Reaches(t: Table, turn: Turn, u: Table, n: nat)
    requires |turn.snapshot| == |turn.revents|
  {
    n <= |turn.snapshot| && PerformAll(t, DispatchActs(t, turn, n)) == u
  }

  lemma ReachesNext(t: Table, turn: Turn, u: Table, i: nat)
    requires i < |turn.snapshot| == |turn.revents| && Reaches(t, turn, u, i)
    ensures Reaches(t, turn, DispatchOne(u, turn.snapshot[i], turn.revents[i], turn.behave(i)), i + 1)
  {
    NextSlot(t, DispatchActs(t, turn, i), u, turn, i);
  }

  lemma DispatchIsActs(t: Table, turn: Turn, n: nat)
    requires n <= |turn.snapshot| == |turn.revents|
    ensures Reaches(t, turn, Dispatch(t, turn.snapshot, turn.revents, turn.behave, n), n)
  {
    forall u: Table, i: nat | i < |turn.snapshot| && Reaches(t, turn, u, i)
      ensures Reaches(t, turn, DispatchOne(u, turn.snapshot[i], turn.revents[i], turn.behave(i)), i + 1)
    {
      ReachesNext(t, turn, u, i);
    }
    DispatchInduction((u: Table, i: nat) => Reaches(t, turn, u, i), t, turn.snapshot, turn.revents, turn.behave, n);
  }

  /** A pass is its acts, in that order. */
  lemma PassIsActs(t: Table, turn: Turn)
    requires |turn.revents| == |turn.snapshot|
    ensures PerformAll(t, PassActs(t, turn)) == Pass(t, turn)
  {
    var n := |turn.snapshot|;
    DispatchIsActs(t, turn, n);
    var t1 := Dispatched(t, turn);
    OpsAreActs(t1, turn.posted);
    Append(t, DispatchActs(t, turn, n), OpActs(turn.posted));
    assert [Tidy][..0] == [];
    Append(t, DispatchActs(t, turn, n) + OpActs(turn.posted), [Tidy]);
    OpsAreActs(Cleanup(ApplyAll(t1, turn.posted)), turn.timers);
    Append(t, DispatchActs(t, turn, n) + OpActs(turn.posted) + [Tidy], OpActs(turn.timers));
  }

  /** The acts of a run, pass by pass. */
  ghost function RunActs(t: Table, turns: seq<Turn>): seq<Act>
    requires Playable(t, turns)
    decreases |turns|
  {
    if turns == [] then [] else PassActs(t, turns[0]) + RunActs(Pass(t, turns[0]), turns[1..])
  }

  /** So what stands over acts stands over runs. */
  lemma {:induction false} RunIsActs(t: Table, turns: seq<Turn>)
    requires Playable(t, turns)
    ensures PerformAll(t, RunActs(t, turns)) == Play(t, turns)
    decreases |turns|
  {
    if turns != [] {
      PassIsActs(t, turns[0]);
      RunIsActs(Pass(t, turns[0]), turns[1..]);
      Append(t, PassActs(t, turns[0]), RunActs(Pass(t, turns[0]), turns[1..]));
    }
  }

  /** Over every run: a write interest requested at some point, and since then neither invoked nor
      added, removed or requested again, is polled in the next pass for what was requested. */
  lemma RequestIsPolledInRuns(setup: seq<Op>, turns: seq<Turn>, i: nat, fd: nat, events: bv16, turn: Turn)
    returns (j: nat)
    requires Playable(ApplyAll(EMPTY, setup), turns)
    requires Possible(Play(ApplyAll(EMPTY, setup), turns), turn)
    requires var acts := RunActs(ApplyAll(EMPTY, setup), turns);
             && i < |acts| && acts[i] == Do(ReqWrite(fd, events)) && NoneConcerns(acts, i + 1, Key(fd, Write))
             && Key(fd, Write) in PerformAll(ApplyAll(EMPTY, setup), acts[..i]).regs
    ensures 1 <= j < |turn.snapshot| && turn.snapshot[j].key == Some(Key(fd, Write))
    ensures turn.snapshot[j].events == events
  {
    var t := ApplyAll(EMPTY, setup);
    RunIsActs(t, turns);
    j := RequestIsPolled(t, RunActs(t, turns), i, fd, events, turn.snapshot);
  }

  // ---- What a pass leaves behind ----------------------------------------------------------

  predicate Removes(op: Op, fd: nat) {
    (op.RemRead? || op.RemWrite?) && op.fd == fd
  }

  /** Only a removal lists an fd for cleanup. */
  lemma {:induction false} ListedByRemoval(t: Table, ops: seq<Op>, fd: nat)
    requires fd in ApplyAll(t, ops).cleanup && fd !in t.cleanup
    ensures exists i :: 0 <= i < |ops| && Removes(ops[i], fd)
    decreases |ops|
  {
    var n := |ops| - 1;
    assert ops != [];
    if !Removes(ops[n], fd) {
      assert fd in ApplyAll(t, ops[..n]).cleanup;
      ListedByRemoval(t, ops[..n], fd);
      var i :| 0 <= i < n && Removes(ops[..n][i], fd);
      assert Removes(ops[i], fd);
    }
  }

  /** The entry of fd is in use: active, left by a failed dup, or removed by a timer after the
      cleanup. */
  ghost predicate InUse(t: Table, timers: seq<Op>, fd: nat) {
    Active(t.regs, fd) || fd in t.strays || exists i :: 0 <= i < |timers| && Removes(timers[i], fd)
  }

  lemma PassTidies(t: Table, turn: Turn, fd: nat)
    requires |turn.revents| == |turn.snapshot| && KnownInv(Pass(t, turn)) && fd in Pass(t, turn).known
    ensures InUse(Pass(t, turn), turn.timers, fd)
  {
    var t' := Pass(t, turn);
    if !Active(t'.regs, fd) && fd !in t'.strays {
      ListedByRemoval(Cleanup(ApplyAll(Dispatched(t, turn), turn.posted)), turn.timers, fd);
    }
  }

  /** At the end of every pass of every run each entry that is left is in use. */
  lemma PassLeavesNoIdleEntry(setup: seq<Op>, turns: seq<Turn>, turn: Turn, fd: nat)
    requires Playable(ApplyAll(EMPTY, setup), turns)
    requires Possible(Play(ApplyAll(EMPTY, setup), turns), turn)
    requires fd in Pass(Play(ApplyAll(EMPTY, setup), turns), turn).known
    ensures InUse(Pass(Play(ApplyAll(EMPTY, setup), turns), turn), turn.timers, fd)
  {
    Reachable(setup, turns);
    PassKeeps(Play(ApplyAll(EMPTY, setup), turns), turn);
    PassTidies(Play(ApplyAll(EMPTY, setup), turns), turn, fd);
  }
}
