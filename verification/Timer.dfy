/** timer: the ordered map of pending callbacks, kept as the sequence of its nodes in key
    order, and the timer counter. */
module Timer {
  import opened Wrappers
  import opened TimerRuns

  /** The insertion position: everything before it is not above id, everything from it on is. */
  lemma {:induction false} InsertAt(es: seq<Entry>, e: Entry, n: nat)
    requires n <= |es|
    requires forall i :: 0 <= i < n ==> !Less(e.id, es[i].id)
    requires n < |es| ==> Less(e.id, es[n].id)
    ensures Insert(es, e) == es[..n] + [e] + es[n..]
  {
    if n > 0 {
      InsertAt(es[1..], e, n - 1);
      assert es[1..][..n - 1] == es[1..n] && es[1..][n - 1..] == es[n..];
      assert es[..n] == [es[0]] + es[1..n];
    }
  }

  lemma {:induction false} WithoutAt(es: seq<Entry>, n: nat)
    requires Sorted(es) && n < |es|
    ensures Without(es, es[n].id) == es[..n] + es[n + 1..]
  {
    if n > 0 {
      assert es[1..][n - 1] == es[n];
      WithoutAt(es[1..], n - 1);
      assert es[1..][..n - 1] == es[1..n] && es[1..][n - 1 + 1..] == es[n + 1..];
      assert es[..n] == [es[0]] + es[1..n];
    } else {
      NothingToRemove(es[1..], es[0].id);
    }
  }

  lemma {:induction false} NothingToRemove(es: seq<Entry>, id: TimerId)
    requires forall i :: 0 <= i < |es| ==> es[i].id != id
    ensures Without(es, id) == es
  {
    if es != [] {
      NothingToRemove(es[1..], id);
    }
  }

  lemma {:induction false} DueIs(es: seq<Entry>, now: int, n: nat)
    requires n <= |es|
    requires forall i :: 0 <= i < n ==> es[i].id.deadline <= now
    requires n < |es| ==> es[n].id.deadline > now
    ensures Due(es, now) == n
  {
    if n > 0 {
      DueIs(es[1..], now, n - 1);
    }
  }

  /** The due entries and the others. */
  lemma DueSplits(es: seq<Entry>, now: int)
    requires Sorted(es)
    ensures var n := Due(es, now);
            && es == es[..n] + es[n..]
            && (forall e :: e in es[..n] ==> e.id.deadline <= now) && (forall e :: e in es[n..] ==> e.id.deadline > now)
  {
    DueExact(es, now);
  }

  /** What a timer callback may do. */
  datatype Op = Wait(forUs: int, nowUs: int, cb: Cb) | Cancel(id: TimerId)

  function StepOf(op: Op): Step {
    match op
    case Wait(forUs, nowUs, cb) => TimerRuns.Wait(forUs, nowUs, cb)
    case Cancel(id) => TimerRuns.Cancel(id)
  }

  /** What a callback leaves behind: its operations in order. */
  ghost function Performed(t: Timers, ops: seq<Op>): (t': Timers)
    ensures t'.extracted == t.extracted && t'.fired == t.fired
    ensures t'.round == t.round && t'.now == t.now && t'.mark == t.mark
    decreases |ops|
  {
    if ops == [] then t else Apply(Performed(t, ops[..|ops| - 1]), StepOf(ops[|ops| - 1]))
  }

  /** The first n extracted timers have fired; callback i performed behave(i) right after its
      firing. */
  ghost function FiredUpTo(t: Timers, behave: nat -> seq<Op>, n: nat): (t': Timers)
    requires n <= |t.extracted|
    ensures t'.extracted == t.extracted[n..] && t'.round == t.round && t'.now == t.now && t'.mark == t.mark
    ensures |t'.fired| == |t.fired| + n && t.fired <= t'.fired
    ensures forall i :: 0 <= i < n ==>
              t'.fired[|t.fired| + i] == Firing(t.extracted[i], t.round, t.now, t.mark)
  {
    if n == 0 then t else Performed(Apply(FiredUpTo(t, behave, n - 1), Fire), behave(n - 1))
  }

  /** A whole schedule call. */
  ghost function Scheduled(t: Timers, nowUs: int, behave: nat -> seq<Op>): Timers
    requires t.extracted == []
  {
    var extracted := Apply(t, Extract(nowUs));
    FiredUpTo(extracted, behave, |extracted.extracted|)
  }

  lemma ScheduledFires(t: Timers, nowUs: int, behave: nat -> seq<Op>)
    requires t.extracted == []
    ensures var due := t.pending[..Due(t.pending, nowUs)];
            var t' := Scheduled(t, nowUs, behave);
            && t'.extracted == [] && |t'.fired| == |t.fired| + |due| && t.fired <= t'.fired
            && forall i :: 0 <= i < |due| ==>
                 t'.fired[|t.fired| + i] == Firing(due[i], t.round + 1, nowUs, t.ctr)
  {
  }

  // ---- A call is a behavior of the timer -------------------------------------------------

  lemma Extend(tr: seq<Timers>, step: Step) returns (longer: seq<Timers>)
    requires Behavior(tr) && Enabled(tr[|tr| - 1], step)
    ensures Behavior(longer) && longer[|longer| - 1] == Apply(tr[|tr| - 1], step)
  {
    longer := tr + [Apply(tr[|tr| - 1], step)];
    forall i | 0 <= i < |longer| - 1 ensures Moves(longer, i) {
      assert i < |tr| - 1 ==> Moves(tr, i);
    }
  }

  lemma {:induction false} PerformedInBehavior(tr: seq<Timers>, ops: seq<Op>) returns (longer: seq<Timers>)
    requires Behavior(tr)
    ensures Behavior(longer) && longer[|longer| - 1] == Performed(tr[|tr| - 1], ops)
    decreases |ops|
  {
    longer := tr;
    if ops != [] {
      longer := PerformedInBehavior(tr, ops[..|ops| - 1]);
      longer := Extend(longer, StepOf(ops[|ops| - 1]));
    }
  }

  lemma {:induction false} FiredInBehavior(tr: seq<Timers>, behave: nat -> seq<Op>, n: nat)
    returns (longer: seq<Timers>)
    requires Behavior(tr) && n <= |tr[|tr| - 1].extracted|
    ensures Behavior(longer) && longer[|longer| - 1] == FiredUpTo(tr[|tr| - 1], behave, n)
  {
    longer := tr;
    if n > 0 {
      longer := FiredInBehavior(tr, behave, n - 1);
      longer := Extend(longer, Fire);
      longer := PerformedInBehavior(longer, behave(n - 1));
    }
  }

  /** What schedule leaves is reached by a behavior, so all that is proved of behaviors holds of
      it: accounting, order, never early. */
  lemma ScheduleInBehavior(tr: seq<Timers>, nowUs: int, behave: nat -> seq<Op>) returns (longer: seq<Timers>)
    requires Behavior(tr) && tr[|tr| - 1].extracted == []
    ensures Behavior(longer) && longer[|longer| - 1] == Scheduled(tr[|tr| - 1], nowUs, behave)
  {
    longer := Extend(tr, Extract(nowUs));
    longer := FiredInBehavior(longer, behave, |longer[|longer| - 1].extracted|);
  }

  class Timer {
    var pending: seq<Entry>
    var ctr: nat
    ghost var spec: Timers

    ghost predicate Valid()
      reads this
    {
      pending == spec.pending && ctr == spec.ctr && PlacesInv(spec)
    }

    constructor ()
      ensures Valid() && spec == EMPTY
    {
      pending, ctr, spec := [], 0, EMPTY;
    }

    method WaitUs(forUs: int, cb: Cb, nowUs: int) returns (id: TimerId)
      requires Valid()
      modifies this
      ensures Valid() && id.deadline == nowUs + forUs && id.ctr == old(ctr) && ctr == old(ctr) + 1
      ensures forall e :: e in pending <==> e in old(pending) || e == Entry(id, cb)
      ensures spec == Apply(old(spec), TimerRuns.Wait(forUs, nowUs, cb))
    {
      id := TimerId(nowUs + forUs, ctr);
      ctr := ctr + 1;
      var n := 0;
      while n < |pending| && !Less(id, pending[n].id)
        invariant n <= |pending|
        invariant forall i :: 0 <= i < n ==> !Less(id, pending[i].id)
      {
        n := n + 1;
      }
      InsertAt(pending, Entry(id, cb), n);
      pending := pending[..n] + [Entry(id, cb)] + pending[n..];
      WaitPlaces(spec, forUs, nowUs, cb);
      WaitIsAsked(spec, forUs, nowUs, cb);
      spec := Apply(spec, TimerRuns.Wait(forUs, nowUs, cb));
    }

    /** True exactly when the timer was pending. */
    method CancelTimer(id: TimerId) returns (found: bool)
      requires Valid()
      modifies this
      ensures Valid() && found == Has(old(spec).pending, id)
      ensures forall e :: e in pending <==> e in old(pending) && e.id != id
      ensures spec == Apply(old(spec), TimerRuns.Cancel(id))
    {
      var n := 0;
      while n < |pending| && pending[n].id != id
        invariant n <= |pending|
        invariant forall i :: 0 <= i < n ==> pending[i].id != id
      {
        n := n + 1;
      }
      found := n < |pending|;
      CancelPlaces(spec, id);
      WithoutSorts(spec.pending, id);
      if found {
        WithoutAt(pending, n);
        pending := pending[..n] + pending[n + 1..];
      }
      spec := Apply(spec, TimerRuns.Cancel(id));
    }

    /** The earliest deadline, if any timer is pending. */
    method GetNextDeadlineUs() returns (deadline: Option<int>)
      requires Valid()
      ensures deadline.None? <==> pending == []
      ensures deadline.Some? ==> (exists e :: e in pending && e.id.deadline == deadline.value)
                                 && (forall e :: e in pending ==> deadline.value <= e.id.deadline)
    {
      if pending == [] {
        return None;
      }
      deadline := Some(pending[0].id.deadline);
      assert pending[0] in pending;
    }

    method ExtractDue(nowUs: int) returns (extracted: seq<Entry>)
      requires Valid() && spec.extracted == []
      modifies this
      ensures Valid() && spec == Apply(old(spec), Extract(nowUs)) && extracted == spec.extracted
      ensures old(pending) == extracted + pending
      ensures forall e :: e in extracted ==> e.id.deadline <= nowUs
      ensures forall e :: e in pending ==> e.id.deadline > nowUs
    {
      extracted := TakeDue(nowUs);
      assert pending != [] ==> old(pending)[|extracted|] == pending[0];
      DueIs(old(pending), nowUs, |extracted|);
      DueSplits(spec.pending, nowUs);
      ExtractPlaces(spec, nowUs);
      spec := Apply(spec, Extract(nowUs));
    }

    /** The loop over the front of the map. */
    method TakeDue(nowUs: int) returns (extracted: seq<Entry>)
      modifies this`pending
      ensures extracted + pending == old(pending)
      ensures forall i :: 0 <= i < |extracted| ==> extracted[i].id.deadline <= nowUs
      ensures pending != [] ==> pending[0].id.deadline > nowUs
    {
      extracted := [];
      while pending != [] && nowUs >= pending[0].id.deadline
        invariant extracted + pending == old(pending)
        invariant forall i :: 0 <= i < |extracted| ==> extracted[i].id.deadline <= nowUs
        decreases |pending|
      {
        extracted := extracted + [pending[0]];
        pending := pending[1..];
      }
    }

    method Perform(op: Op)
      requires Valid()
      modifies this
      ensures Valid() && spec == Apply(old(spec), StepOf(op))
    {
      match op
      case Wait(forUs, nowUs, cb) => var id := WaitUs(forUs, cb, nowUs);
      case Cancel(id) => var found := CancelTimer(id);
    }

    method PerformAll(ops: seq<Op>)
      requires Valid()
      modifies this
      ensures Valid() && spec == Performed(old(spec), ops)
    {
      for i := 0 to |ops|
        invariant Valid() && spec == Performed(old(spec), ops[..i])
      {
        assert ops[..i + 1][..i] == ops[..i];
        Perform(ops[i]);
      }
      assert ops[..|ops|] == ops;
    }

    method RunCallback(ops: seq<Op>)
      requires Valid() && spec.extracted != []
      modifies this
      ensures Valid() && spec == Performed(Apply(old(spec), Fire), ops)
    {
      FirePlaces(spec);
      spec := Apply(spec, Fire);
      PerformAll(ops);
    }

    /** Runs the callbacks of exactly the timers due at the call, in key order, whatever the
        callbacks add or cancel; callback i performs behave(i), and what it adds or cancels is
        what is pending, issued and cancelled afterwards. */
    method Schedule(nowUs: int, behave: nat -> seq<Op>)
      requires Valid() && spec.extracted == []
      modifies this
      ensures Valid() && spec.extracted == [] && spec == Scheduled(old(spec), nowUs, behave)
      ensures var due := old(pending)[..Due(old(pending), nowUs)];
              && |spec.fired| == |old(spec).fired| + |due| && old(spec).fired <= spec.fired
              && forall i :: 0 <= i < |due| ==>
                   spec.fired[|old(spec).fired| + i] == Firing(due[i], old(spec).round + 1, nowUs, old(ctr))
    {
      ScheduledFires(spec, nowUs, behave);
      var extracted := ExtractDue(nowUs);
      RunExtracted(extracted, behave);
    }

    /** The loop over the extracted timers, outside the lock. */
    method RunExtracted(extracted: seq<Entry>, behave: nat -> seq<Op>)
      requires Valid() && extracted == spec.extracted
      modifies this
      ensures Valid() && spec == FiredUpTo(old(spec), behave, |extracted|)
    {
      for i := 0 to |extracted|
        invariant Valid() && spec == FiredUpTo(old(spec), behave, i)
      {
        RunCallback(behave(i));
      }
    }
  }
}
