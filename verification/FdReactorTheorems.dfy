/** What holds in every interleaving of the FdReactor machine. */
module FdReactorTheorems {
  import opened Callbacks
  import opened FdReactor
  import opened FdReactorInvariant

  lemma {:induction false} Reachable(tr: seq<State>, i: nat)
    requires Behavior(tr) && i < |tr|
    ensures Inv(tr[i])
  {
    if i == 0 {
      InitInv(tr[0]);
    } else {
      Reachable(tr, i - 1);
      assert Moves(tr, i - 1);
      var step :| NextStep(tr[i - 1], step, tr[i]);
      InvKept(tr[i - 1], step, tr[i]);
    }
  }

  // ---- No lost wake-up -------------------------------------------------------------

  /** The reactor is blocked in poll or epoll_wait without a timeout. */
  predicate BlockedForever(s: State) {
    s.phase.Polling? && s.phase.forever
  }

  /** A callback, a removal or a stop request waits for the reactor. */
  predicate Outstanding(s: State) {
    s.mail.callbacks != [] || s.removals.queued != [] || !s.running
  }

  /** The doorbell reports ready: the blocked call returns. */
  predicate DoorbellReady(b: Bell) {
    match b
    case Pipe(_, bytes, _) => bytes == 1
    case EventFd(count) => count > 0
  }

  /** Some other thread is still inside its call, with its doorbell action ahead of it. */
  ghost predicate CallerOwes(s: State) {
    exists t :: t != REACTOR && (PcOf(s, t).PostingRemoval? || PcOf(s, t).Ringing? || PcOf(s, t).Writing?)
  }

  /** With an outstanding request the blocked reactor is about to be woken, provided the
      latest ring did not fail with an unexpected error. */
  lemma NoLostWakeUp(tr: seq<State>, i: nat)
    requires Behavior(tr) && i < |tr|
    requires BlockedForever(tr[i]) && Outstanding(tr[i]) && !tr[i].lost
    ensures DoorbellReady(tr[i].bell) || CallerOwes(tr[i])
  {
    Reachable(tr, i);
    var s := tr[i];
    assert PcOf(s, REACTOR).Idle?;
    if s.removals.queued != [] {
      assert HasItsCallback(s, s.removals.queued[0]);
    }
  }

  /** The condition is exact: a blocked reactor with an outstanding request stays asleep on its
      own account exactly when the latest write to the doorbell failed and every caller has
      returned. */
  lemma LostExactlyAfterFailedWrite(tr: seq<State>, i: nat)
    requires Behavior(tr) && i < |tr|
    requires BlockedForever(tr[i]) && Outstanding(tr[i])
    ensures DoorbellReady(tr[i].bell) || CallerOwes(tr[i])
            <==> !tr[i].lost || exists t :: PcOf(tr[i], t).PostingRemoval? || PcOf(tr[i], t).Ringing?
  {
    Reachable(tr, i);
    assert PcOf(tr[i], REACTOR).Idle?;
    if !tr[i].lost {
      NoLostWakeUp(tr, i);
    }
  }

  /** The failure does happen, with either doorbell: an unexpected write error leaves a callback
      behind with the reactor asleep and nobody about to ring. */
  lemma FailedWriteLosesWakeUp(bell: Bell) returns (tr: seq<State>)
    requires Quiet(bell)
    ensures Behavior(tr) && tr[0].bell == bell
    ensures var s := tr[|tr| - 1];
            BlockedForever(s) && s.mail.callbacks == [User(7)] && !DoorbellReady(s.bell) && !CallerOwes(s)
  {
    tr := FallAsleep([NewReactor(bell, {})]);
    tr := Extend(tr, WakeUpWith(1, 7), CallerEffect(tr[|tr| - 1], WakeUpWith(1, 7)));
    tr := RingUnheard(tr, 1);
  }

  /** A doorbell nobody has rung. */
  predicate Quiet(b: Bell) {
    match b
    case Pipe(pending, bytes, capacity) => !pending && bytes == 0 && capacity >= 1
    case EventFd(count) => count == 0
  }

  function NewReactor(bell: Bell, bound: set<QueueId>): State {
    State(bell, false, map[], false, Mail([], [], [], []), Removals([], [], [], [], []),
          Queues(bound, [], map[], false), Created)
  }

  /** A reactor that is entered and finds no reason to keep going. */
  lemma FallAsleep(tr: seq<State>) returns (longer: seq<State>)
    requires Behavior(tr) && tr[|tr| - 1].phase.Created? && ReactorFree(tr[|tr| - 1])
    requires !tr[|tr| - 1].queues.backlog
    ensures Behavior(longer) && longer[0] == tr[0]
    ensures longer[|longer| - 1] == tr[|tr| - 1].(running := true, phase := Polling(true))
  {
    var s := tr[|tr| - 1].(running := true);
    longer := Extend(tr, Start, s.(phase := Top));
    longer := Extend(longer, TestRunning, s.(phase := Arming));
    longer := Extend(longer, Block(false), s.(phase := Polling(true)));
  }

  /** A caller's write to a quiet doorbell fails. */
  lemma RingUnheard(tr: seq<State>, t: Tid) returns (longer: seq<State>)
    requires Behavior(tr) && Quiet(tr[|tr| - 1].bell) && PcOf(tr[|tr| - 1], t).Ringing?
    ensures Behavior(longer) && longer[0] == tr[0]
    ensures longer[|longer| - 1] == Goto(tr[|tr| - 1], t, Idle).(lost := true)
  {
    var s := tr[|tr| - 1];
    if s.bell.EventFd? {
      longer := Extend(tr, RingFails(t), Goto(s, t, Idle).(lost := true));
    } else {
      var s1 := CallerEffect(s, Ring(t));
      longer := Extend(tr, Ring(t), s1);
      var s2 := CallerEffect(s1, WriteFails(t));
      longer := Extend(longer, WriteFails(t), s2);
      assert s2.callers == s.callers[t := Idle];
    }
  }

  lemma Extend(tr: seq<State>, step: Step, s': State) returns (longer: seq<State>)
    requires Behavior(tr) && NextStep(tr[|tr| - 1], step, s')
    ensures Behavior(longer) && longer[0] == tr[0] && longer[|longer| - 1] == s'
  {
    longer := tr + [s'];
    forall i | 0 <= i < |longer| - 1 ensures Moves(longer, i) {
      assert i < |tr| - 1 ==> Moves(tr, i);
    }
  }

  /** At k the wake handler has absorbed the rings and the callbacks are about to be taken. */
  predicate HeardAt(tr: seq<State>, k: nat) {
    0 < k < |tr| && tr[k].phase.Dispatching? && tr[k - 1].phase.Draining?
  }

  /** A ring that is live or owed stays so until the reactor hears it, unless it is lost to a
      failed write. */
  lemma {:induction false} RingIsHeard(tr: seq<State>, i: nat, j: nat)
    requires Behavior(tr) && i <= j < |tr| && Rung(tr[i])
    ensures Token(tr[j].bell) || RingOwed(tr[j]) || tr[j].lost || exists k :: i < k <= j && HeardAt(tr, k)
    decreases j
  {
    if i < j {
      RingIsHeard(tr, i, j - 1);
      if Rung(tr[j - 1]) {
        Reachable(tr, j - 1);
        assert Moves(tr, j - 1);
        var step :| NextStep(tr[j - 1], step, tr[j]);
        RungKept(tr[j - 1], step, tr[j]);
        assert Rung(tr[j]) || HeardAt(tr, j);
      }
    }
  }

  // ---- No sleeping on data ---------------------------------------------------------

  /** A registered and bound queue with data is never slept on: the doorbell is ready, or
      another thread is between its enqueue and its ring. */
  lemma NoSleepingOnData(tr: seq<State>, i: nat, q: QueueId)
    requires Behavior(tr) && i < |tr|
    requires BlockedForever(tr[i]) && !tr[i].lost
    requires q in tr[i].queues.entries && q in tr[i].queues.bound && Size(tr[i].queues, q) > 0
    ensures DoorbellReady(tr[i].bell) || CallerOwes(tr[i])
            || exists t :: t != REACTOR && PcOf(tr[i], t) == Enqueued(q)
  {
    Reachable(tr, i);
    assert PcOf(tr[i], REACTOR).Idle?;
  }

  /** Exactly when the reactor sleeps on data: the latest write to the doorbell failed, every
      caller has returned and no push to this queue is under way. */
  lemma SleptOnExactlyAfterFailedWrite(tr: seq<State>, i: nat, q: QueueId)
    requires Behavior(tr) && i < |tr| && BlockedForever(tr[i])
    requires q in tr[i].queues.entries && q in tr[i].queues.bound && Size(tr[i].queues, q) > 0
    ensures DoorbellReady(tr[i].bell) || CallerOwes(tr[i])
            || (exists t :: t != REACTOR && PcOf(tr[i], t) == Enqueued(q))
            <==> !tr[i].lost || exists t :: PcOf(tr[i], t).PostingRemoval? || PcOf(tr[i], t).Ringing?
                                            || PcOf(tr[i], t) == Enqueued(q)
  {
    Reachable(tr, i);
    assert PcOf(tr[i], REACTOR).Idle?;
    if !tr[i].lost {
      NoSleepingOnData(tr, i, q);
    }
  }

  /** And it does, with either doorbell. */
  lemma FailedWriteSleepsOnData(bell: Bell) returns (tr: seq<State>)
    requires Quiet(bell)
    ensures Behavior(tr) && tr[0].bell == bell
    ensures var s := tr[|tr| - 1];
            && BlockedForever(s) && 4 in s.queues.entries && 4 in s.queues.bound && Size(s.queues, 4) == 1
            && !DoorbellReady(s.bell) && !CallerOwes(s) && !PushUnderWay(s, 4)
  {
    tr := [NewReactor(bell, {4})];
    tr := Extend(tr, AddQueue(1, 4), CallerEffect(tr[|tr| - 1], AddQueue(1, 4)));
    tr := RingUnheard(tr, 1);
    tr := FallAsleep(tr);
    tr := Extend(tr, Push(1, 4, 1), CallerEffect(tr[|tr| - 1], Push(1, 4, 1)));
    tr := Extend(tr, NotifyPush(1), CallerEffect(tr[|tr| - 1], NotifyPush(1)));
    tr := RingUnheard(tr, 1);
  }

  // ---- The single wake token -------------------------------------------------------

  ghost function Writers(s: State): set<Tid> {
    set t | t in s.callers && s.callers[t].Writing?
  }

  /** m_wake_pending counts the wake tokens: one byte in the pipe, or one thread between
      its compare-and-swap and its write, or the reader between drain and clear. */
  lemma SingleWakeToken(tr: seq<State>, i: nat)
    requires Behavior(tr) && i < |tr| && tr[i].bell.Pipe?
    ensures var s := tr[i];
            s.bell.bytes + |Writers(s)| + (if s.phase == Draining(true) then 1 else 0)
            == if s.bell.pending then 1 else 0
  {
    Reachable(tr, i);
    var s := tr[i];
    forall t: Tid, u: Tid | t in Writers(s) && u in Writers(s) ensures t == u {
      assert PcOf(s, t).Writing? && PcOf(s, u).Writing?;
    }
    if Writers(s) == {} {
      assert forall t: Tid :: PcOf(s, t).Writing? ==> t in Writers(s);
    } else {
      var t :| t in Writers(s);
      assert PcOf(s, t).Writing?;
      assert Writers(s) == {t};
    }
  }

  /** The pipe never holds more than one byte, so the full-pipe branch of wake_up is dead
      whatever the pipe's capacity. */
  lemma FullPipeNeverSeen(tr: seq<State>, i: nat, t: Tid)
    requires Behavior(tr) && i < |tr|
    ensures tr[i].bell.Pipe? ==> tr[i].bell.bytes <= 1
    ensures !CallerEnabled(tr[i], WriteFull(t))
  {
    Reachable(tr, i);
  }

  // ---- Deferred removals -----------------------------------------------------------

  /** Removals happen in request order and at most once, each followed by its done_cb
      before the next; a removal still queued has its own callback ahead of it; and a removal
      is done, with its done_cb, before any callback after its own one starts and before the
      pass goes on. */
  lemma DeferredRemovals(tr: seq<State>, i: nat)
    requires Behavior(tr) && i < |tr|
    ensures var r := tr[i].removals;
            && r.requested == r.removed + r.removing + r.queued
            && (forall a, b :: 0 <= a < b < |r.requested| ==> r.requested[a] != r.requested[b])
            && r.finished <= r.removed && |r.removed| <= |r.finished| + 1
    ensures forall r :: r in tr[i].removals.queued ==> HasItsCallback(tr[i], r)
    ensures forall a :: 0 <= a < |tr[i].mail.ran| && tr[i].mail.ran[a].RunRemovals? ==>
              var r := tr[i].mail.ran[a].removal;
              && r in tr[i].removals.removed + tr[i].removals.removing
              && (a < |tr[i].mail.ran| - 1 || !tr[i].phase.Running? ==> r in tr[i].removals.finished)
  {
    Reachable(tr, i);
    var s := tr[i];
    forall a | 0 <= a < |s.mail.ran| && s.mail.ran[a].RunRemovals?
      ensures s.mail.ran[a].removal in s.removals.removed + s.removals.removing
    {
      assert RunRemovals(s.mail.ran[a].removal) in s.mail.ran;
    }
  }

  // ---- Delivery --------------------------------------------------------------------

  /** The reactor alone can take these steps, one after the other. */
  predicate Playable(s: State, steps: seq<Step>)
    decreases |steps|
  {
    steps == [] || (ReactorEnabled(s, steps[0]) && Playable(ReactorEffect(s, steps[0]), steps[1..]))
  }

  function After(s: State, steps: seq<Step>): State
    requires Playable(s, steps)
    decreases |steps|
  {
    if steps == [] then s else After(ReactorEffect(s, steps[0]), steps[1..])
  }

  lemma Prepend(s: State, step: Step, steps: seq<Step>)
    requires ReactorEnabled(s, step) && Playable(ReactorEffect(s, step), steps)
    ensures Playable(s, [step] + steps) && After(s, [step] + steps) == After(ReactorEffect(s, step), steps)
  {
    assert ([step] + steps)[1..] == steps;
  }

  /** The reactor does not wait in any of these steps. */
  predicate NoWaiting(steps: seq<Step>) {
    forall k :: 0 <= k < |steps| ==> !steps[k].Block? && !steps[k].Interrupted? && !steps[k].PollReturns?
  }

  /** Apart from waiting, the reactor alone has one thing to do in every state. */
  lemma ReactorIsDeterministic(s: State, a: Step, b: Step)
    requires ReactorEnabled(s, a) && ReactorEnabled(s, b)
    requires !a.Block? && !a.Interrupted? && !a.PollReturns?
    ensures a == b
  {
  }

  /** So any two ways of going on without waiting are the same way. */
  lemma {:induction false} OneWay(s: State, steps: seq<Step>, others: seq<Step>)
    requires Playable(s, steps) && NoWaiting(steps) && Playable(s, others)
    ensures others <= steps || steps <= others
    decreases |steps|
  {
    if steps != [] && others != [] {
      ReactorIsDeterministic(s, steps[0], others[0]);
      OneWay(ReactorEffect(s, steps[0]), steps[1..], others[1..]);
      assert steps == [steps[0]] + steps[1..] && others == [others[0]] + others[1..];
    }
  }

  ghost predicate AllReturned(s: State) {
    forall t :: PcOf(s, t).Idle?
  }

  /** The reactor is undisturbed: the invariant holds and every caller has returned. */
  ghost predicate Calm(s: State) {
    Inv(s) && AllReturned(s)
  }

  /** What has been asked for is the same in both states. */
  predicate SameRequests(s: State, z: State) {
    z.mail.posted == s.mail.posted && z.removals.requested == s.removals.requested && z.running == s.running
  }

  /** Everything asked for has been done. */
  predicate Served(z: State) {
    z.mail.ran == z.mail.posted && z.removals.finished == z.removals.requested
  }

  lemma CalmStep(s: State, step: Step)
    requires Calm(s) && ReactorEnabled(s, step) && !step.Start?
    ensures Calm(ReactorEffect(s, step)) && SameRequests(s, ReactorEffect(s, step))
  {
    InvKept(s, step, ReactorEffect(s, step));
    ReactorFrame(s, step, ReactorEffect(s, step));
  }

  /** With the list empty and every caller back, no removal is left behind. */
  lemma NothingQueued(s: State)
    requires Calm(s) && s.mail.callbacks == [] && s.mail.batch == []
    ensures s.removals.queued == []
  {
    assert forall r :: !HasItsCallback(s, r);
    NoMembers(s.removals.queued);
  }

  lemma NoMembers(ids: seq<RemovalId>)
    ensures (forall r :: r !in ids) ==> ids == []
  {
    if ids != [] {
      assert ids[0] in ids;
    }
  }

  /** The rest of a pass leaves the callbacks, the removals and the doorbell alone. */
  ghost predicate SameWork(s: State, z: State) {
    z.mail == s.mail && z.removals == s.removals && z.running == s.running && z.bell == s.bell
  }

  /** Some entry from n on has data. */
  ghost predicate DataAhead(entries: seq<QueueId>, qs: Queues, n: nat) {
    exists j :: n <= j < |entries| && Size(qs, entries[j]) > 0
  }

  /** The backlog flag the reactor alone will set: its handlers take nothing. */
  ghost predicate BacklogDue(s: State) {
    if s.phase.Notifying? then s.phase.left || DataAhead(s.phase.snapshot, s.queues, s.phase.next) else s.queues.backlog
  }

  lemma BacklogStep(s: State, step: Step)
    requires ReactorInv(s) && ReactorEnabled(s, step)
    requires step.EndPass? || step.LeaveQueue? || step.VisitQueue? || step.EndNotify?
    ensures BacklogDue(ReactorEffect(s, step)) == BacklogDue(s)
    ensures SameWork(s, ReactorEffect(s, step))
  {
  }

  lemma FinishNotify(s: State) returns (steps: seq<Step>)
    requires Calm(s) && (s.phase.Notifying? || s.phase.Tidying?)
    ensures Playable(s, steps) && NoWaiting(steps)
    ensures Calm(After(s, steps)) && SameWork(s, After(s, steps)) && After(s, steps).phase.Top?
    ensures After(s, steps).queues.backlog == BacklogDue(s)
    decreases if s.phase.Tidying? then -1
              else 2 * (|s.phase.snapshot| - s.phase.next) - (if s.phase.inHandler then 1 else 0)
  {
    var step := if s.phase.Tidying? then EndPass
                else if s.phase.inHandler then LeaveQueue
                else if s.phase.next < |s.phase.snapshot| then VisitQueue else EndNotify;
    CalmStep(s, step);
    BacklogStep(s, step);
    if step.EndPass? {
      steps := [];
    } else {
      steps := FinishNotify(ReactorEffect(s, step));
    }
    Prepend(s, step, steps);
    steps := [step] + steps;
  }

  /** Between the last callback and the test of m_running. */
  lemma FinishPass(s: State) returns (steps: seq<Step>)
    requires Calm(s) && RemovalsDone(s) && s.mail.batch == []
    ensures Playable(s, steps) && NoWaiting(steps)
    ensures Calm(After(s, steps)) && SameWork(s, After(s, steps)) && After(s, steps).phase.Top?
    ensures After(s, steps).queues.backlog == DataAhead(s.queues.entries, s.queues, 0)
  {
    CalmStep(s, Snapshot);
    steps := FinishNotify(ReactorEffect(s, Snapshot));
    Prepend(s, Snapshot, steps);
    steps := [Snapshot] + steps;
  }

  /** The reactor is back at the test of m_running and has done all that was asked for in s; the
      doorbell is left as b, and the backlog flag says whether a registered queue has data. */
  ghost predicate PassDone(s: State, b: Bell, z: State) {
    && Calm(z) && SameRequests(s, z) && Served(z) && z.phase.Top?
    && z.bell == b && z.queues.backlog == DataAhead(s.queues.entries, s.queues, 0)
  }

  /** From inside a batch the reactor alone finishes the batch and every removal in it, and
      then the pass. */
  lemma FinishBatch(s: State) returns (steps: seq<Step>)
    requires Calm(s) && s.phase.Running? && s.mail.callbacks == []
    ensures Playable(s, steps) && NoWaiting(steps) && PassDone(s, s.bell, After(s, steps))
    decreases |s.mail.batch|, |s.removals.removing|, |s.removals.removed| - |s.removals.finished|
  {
    if RemovalsDone(s) && s.mail.batch == [] {
      NothingQueued(s);
      steps := FinishPass(s);
    } else {
      var step := if RemovalsDone(s) then RunNext
                  else if s.removals.finished == s.removals.removed then RemoveNext else FinishRemoval;
      CalmStep(s, step);
      steps := FinishBatch(ReactorEffect(s, step));
      Prepend(s, step, steps);
      steps := [step] + steps;
    }
  }

  /** From the dispatch phase on, the pass takes the whole list, finishes it, and returns to
      the test of m_running. */
  lemma DispatchServes(s: State) returns (steps: seq<Step>)
    requires Calm(s) && s.phase.Dispatching?
    ensures Playable(s, steps) && NoWaiting(steps) && PassDone(s, s.bell, After(s, steps))
  {
    CalmStep(s, Take);
    steps := FinishBatch(ReactorEffect(s, Take));
    Prepend(s, Take, steps);
    steps := [Take] + steps;
  }

  lemma ClearServes(s: State) returns (steps: seq<Step>)
    requires Calm(s) && s.phase == Draining(true)
    ensures s.bell.Pipe? && Playable(s, steps) && NoWaiting(steps)
    ensures PassDone(s, s.bell.(pending := false), After(s, steps))
  {
    CalmStep(s, Clear);
    steps := DispatchServes(ReactorEffect(s, Clear));
    Prepend(s, Clear, steps);
    steps := [Clear] + steps;
  }

  /** What one pass makes of the doorbell when the wait reported it: the pipe is emptied and the
      flag cleared; the semaphore goes down by one. */
  function Absorbed(b: Bell): Bell {
    match b
    case Pipe(_, _, capacity) => Pipe(false, 0, capacity)
    case EventFd(count) => EventFd(if count > 0 then count - 1 else 0)
  }

  /** The wake handler absorbs the ring and the pass goes on. */
  lemma DrainServes(s: State) returns (steps: seq<Step>)
    requires Calm(s) && s.phase == Draining(false)
    ensures Playable(s, steps) && NoWaiting(steps) && PassDone(s, Absorbed(s.bell), After(s, steps))
  {
    CalmStep(s, Read);
    if s.bell.Pipe? {
      steps := ClearServes(ReactorEffect(s, Read));
    } else {
      steps := DispatchServes(ReactorEffect(s, Read));
    }
    Prepend(s, Read, steps);
    steps := [Read] + steps;
  }

  /** With a request outstanding and every caller back, the doorbell reports ready. */
  lemma RequestRings(s: State)
    requires Calm(s) && s.phase.Polling? && Outstanding(s) && !s.lost
    ensures ReactorEnabled(s, PollReturns(true))
  {
    if s.mail.callbacks == [] && s.running {
      NothingQueued(s);
    }
  }

  lemma ReturnServes(s: State, woken: bool) returns (steps: seq<Step>)
    requires Calm(s) && ReactorEnabled(s, PollReturns(woken))
    ensures Playable(s, [PollReturns(woken)] + steps) && NoWaiting(steps)
    ensures PassDone(s, if woken then Absorbed(s.bell) else s.bell, After(s, [PollReturns(woken)] + steps))
  {
    CalmStep(s, PollReturns(woken));
    if woken {
      steps := DrainServes(ReactorEffect(s, PollReturns(woken)));
    } else {
      steps := DispatchServes(ReactorEffect(s, PollReturns(woken)));
    }
    Prepend(s, PollReturns(woken), steps);
  }

  /** In every behavior, once every caller has returned: an outstanding request wakes the waiting
      reactor unless the latest ring was lost.  And whenever its wait returns, for whatever
      reason and also after a lost ring, the reactor alone runs every posted callback, completes
      every requested removal, uses the ring up, and then leaves `run` exactly when a stop was
      requested: the pass `steps` does it, and however the reactor alone goes on, it is still in
      that pass or has completed it. */
  lemma PassServesEveryRequest(tr: seq<State>, i: nat, woken: bool) returns (steps: seq<Step>)
    requires Behavior(tr) && i < |tr|
    requires tr[i].phase.Polling? && AllReturned(tr[i]) && ReactorEnabled(tr[i], PollReturns(woken))
    ensures Outstanding(tr[i]) && !tr[i].lost ==> ReactorEnabled(tr[i], PollReturns(true))
    ensures Playable(tr[i], [PollReturns(woken)] + steps)
    ensures var z := After(tr[i], [PollReturns(woken)] + steps);
            && z.mail.ran == tr[i].mail.posted && z.removals.finished == tr[i].removals.requested
            && z.phase.Top? && ReactorEnabled(z, TestRunning)
            && (ReactorEffect(z, TestRunning).phase.Exited? <==> !tr[i].running)
            && (match z.bell
                case Pipe(pending, bytes, _) => !pending && bytes == 0
                case EventFd(count) => tr[i].bell.EventFd? && count == tr[i].bell.count - (if woken then 1 else 0))
            && (z.queues.backlog <==> exists q :: q in tr[i].queues.entries && Size(tr[i].queues, q) > 0)
    ensures forall others :: Playable(ReactorEffect(tr[i], PollReturns(woken)), others)
              ==> others <= steps || steps <= others
  {
    Reachable(tr, i);
    var s := tr[i];
    if Outstanding(s) && !s.lost {
      RequestRings(s);
    }
    steps := ReturnServes(s, woken);
    assert ([PollReturns(woken)] + steps)[1..] == steps;
    forall others | Playable(ReactorEffect(s, PollReturns(woken)), others) ensures others <= steps || steps <= others {
      OneWay(ReactorEffect(s, PollReturns(woken)), steps, others);
    }
  }

  /** The reactor waits again with a timeout exactly when there is a deadline or a backlog, and a
      doorbell that nobody has rung since does not report: the reactor does not spin. */
  lemma WaitsAgain(z: State, hasDeadline: bool)
    requires Calm(z) && z.phase.Top? && z.running
    ensures Playable(z, [TestRunning, Block(hasDeadline)])
    ensures var y := After(z, [TestRunning, Block(hasDeadline)]);
            && y.bell == z.bell && y.phase == Polling(!hasDeadline && !z.queues.backlog)
            && (ReactorEnabled(y, PollReturns(true)) <==> DoorbellReady(z.bell))
  {
    var y := ReactorEffect(z, TestRunning);
    Prepend(y, Block(hasDeadline), []);
    Prepend(z, TestRunning, [Block(hasDeadline)]);
    assert [Block(hasDeadline)] + [] == [Block(hasDeadline)];
    assert [TestRunning] + [Block(hasDeadline)] == [TestRunning, Block(hasDeadline)];
    BellReports(ReactorEffect(y, Block(hasDeadline)));
  }

  lemma BellReports(s: State)
    requires (s.bell.Pipe? ==> s.bell.bytes <= 1) && s.phase.Polling? && ReactorFree(s)
    ensures ReactorEnabled(s, PollReturns(true)) <==> DoorbellReady(s.bell)
  {
  }

  /** In every behavior, once every caller has returned and no registered queue has data, the pass
      after one ring leaves a reactor that, without a timer, blocks without a timeout and is not
      woken by that ring again. */
  lemma OneRingOnePass(tr: seq<State>, i: nat, woken: bool) returns (steps: seq<Step>)
    requires Behavior(tr) && i < |tr| && tr[i].running
    requires tr[i].phase.Polling? && AllReturned(tr[i]) && ReactorEnabled(tr[i], PollReturns(woken))
    requires forall q :: q in tr[i].queues.entries ==> Size(tr[i].queues, q) == 0
    requires tr[i].bell.EventFd? ==> tr[i].bell.count == if woken then 1 else 0
    ensures Playable(tr[i], [PollReturns(woken)] + steps)
    ensures var z := After(tr[i], [PollReturns(woken)] + steps);
            && Playable(z, [TestRunning, Block(false)])
            && var y := After(z, [TestRunning, Block(false)]);
               BlockedForever(y) && !Outstanding(y) && !DoorbellReady(y.bell) && !ReactorEnabled(y, PollReturns(true))
  {
    Reachable(tr, i);
    steps := ReturnServes(tr[i], woken);
    WaitsAgain(After(tr[i], [PollReturns(woken)] + steps), false);
  }

  // ---- Requests are what the callers asked for -----------------------------------------

  /** Each call leaves its request where the theorems look for it. */
  lemma CallsAreRecorded(s: State, step: Step)
    requires CallerEnabled(s, step)
    ensures var s' := CallerEffect(s, step);
            && (step.WakeUpWith? ==> s'.mail.callbacks == s.mail.callbacks + [User(step.id)])
            && (step.PostRemoval? ==> s'.mail.callbacks == s.mail.callbacks + [RunRemovals(PcOf(s, step.t).removal)])
            && (step.DeferRemoval? ==> s'.removals.queued == s.removals.queued + [step.r])
            && (step.Stop? ==> !s'.running)
            && (step.Push? || step.Shrink? ==> Size(s'.queues, step.q) == step.size)
            && (step.AddQueue? ==> step.q in s'.queues.entries)
            && (step.RemQueue? ==> step.q !in s'.queues.entries)
  {
    RemEntryMembers(s.queues.entries, if step.RemQueue? then step.q else 0);
  }

  /** An interrupted wait starts over, with everything as it was. */
  lemma InterruptionStartsOver(s: State)
    requires ReactorEnabled(s, Interrupted)
    ensures ReactorEffect(s, Interrupted).phase.Top? && ReactorEffect(s, Interrupted).(phase := s.phase) == s
  {
  }

  /** A stop requested in run is never forgotten. */
  lemma {:induction false} StopIsFinal(tr: seq<State>, i: nat, j: nat)
    requires Behavior(tr) && i <= j < |tr| && !tr[i].phase.Created? && !tr[i].running
    ensures !tr[j].running && !tr[j].phase.Created?
    decreases j
  {
    if i < j {
      StopIsFinal(tr, i, j - 1);
      assert Moves(tr, j - 1);
      var step :| NextStep(tr[j - 1], step, tr[j]);
      StaysStopped(tr[j - 1], step, tr[j]);
    }
  }

  lemma StaysStopped(s: State, step: Step, s': State)
    requires NextStep(s, step, s') && !s.phase.Created? && !s.running
    ensures !s'.phase.Created? && !s'.running
  {
    if CallerStep(s, step, s') { CallerStaysStopped(s, step, s'); } else { ReactorStaysStopped(s, step, s'); }
  }

  lemma CallerStaysStopped(s: State, step: Step, s': State)
    requires CallerStep(s, step, s') && !s.running
    ensures s'.phase == s.phase && !s'.running
  {
  }

  lemma ReactorStaysStopped(s: State, step: Step, s': State)
    requires ReactorStep(s, step, s') && !s.phase.Created? && !s.running
    ensures !s'.phase.Created? && !s'.running
  {
  }
}
