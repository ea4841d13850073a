/** The inductive invariant of the FdReactor machine. */
module FdReactorInvariant {
  import opened Callbacks
  import opened FdReactor

  /** A thread is inside wake_up and has not touched the doorbell yet. */
  ghost predicate RingOwed(s: State) {
    exists t :: PcOf(s, t).Ringing?
  }

  ghost predicate Rung(s: State) {
    Token(s.bell) || s.lost || RingOwed(s)
  }

  /** A thread has enqueued into q and is about to read q's binding. */
  ghost predicate PushUnderWay(s: State, q: QueueId) {
    exists t :: PcOf(s, t) == Enqueued(q)
  }

  /** The reactor looks at q again before it can block without a timeout. */
  predicate WillVisit(s: State, q: QueueId) {
    match s.phase
    case Dispatching => true
    case Running => true
    case Exited => true
    case Notifying(snapshot, next, left, _) => left || (next <= |snapshot| && q in snapshot[next..])
    case _ => s.queues.backlog
  }

  /** The wake token: `pending` holds exactly when there is one token, and the token is
      with one writer, or one byte in the pipe, or with the reader between the read that
      empties the pipe and the store that clears the flag. */
  ghost predicate TokenInv(s: State) {
    match s.bell
    case Pipe(pending, bytes, capacity) =>
      && bytes <= 1 <= capacity
      && (s.lost ==> !pending)
      && (forall t, u :: PcOf(s, t).Writing? && PcOf(s, u).Writing? ==> t == u)
      && (forall t :: PcOf(s, t).Writing? ==> pending && bytes == 0 && s.phase != Draining(true))
      && (bytes == 1 ==> pending && s.phase != Draining(true))
      && (s.phase == Draining(true) ==> pending)
      && (s.phase == Draining(false) ==> bytes == 1)
      && (pending ==> bytes == 1 || s.phase == Draining(true) || exists t :: PcOf(s, t).Writing?)
    case EventFd(count) =>
      && (s.lost ==> count == 0)
      && (forall t :: !PcOf(s, t).Writing?)
      && (s.phase.Draining? ==> s.phase == Draining(false) && count > 0)
  }

  ghost predicate ReactorInv(s: State) {
    && (!InCallback(s) ==> PcOf(s, REACTOR).Idle?)
    && !PcOf(s, REACTOR).PostingRemoval?
    && (!s.phase.Running? ==> s.mail.batch == [] && s.removals.removing == []
                              && s.removals.finished == s.removals.removed)
    && (s.phase.Polling? && s.phase.forever ==> !s.queues.backlog)
    && (s.phase.Notifying? ==> s.phase.next <= |s.phase.snapshot|
                               && (s.phase.inHandler ==> s.phase.next < |s.phase.snapshot|))
  }

  ghost predicate WakeInv(s: State) {
    && (s.mail.callbacks != [] && !s.phase.Dispatching? && !s.phase.Exited? ==> Rung(s))
    && (!s.running && (s.phase.Arming? || s.phase.Polling? || s.phase.Draining?) ==> Rung(s))
  }

  ghost predicate QueueInv(s: State) {
    forall q :: q in s.queues.entries && q in s.queues.bound && Size(s.queues, q) > 0
      ==> Rung(s) || PushUnderWay(s, q) || WillVisit(s, q)
  }

  /** No removal is lost, duplicated or reordered, and each one's done_cb follows it
      before the next removal. */
  ghost predicate RemovalHistoryInv(r: Removals) {
    && r.requested == r.removed + r.removing + r.queued
    && (forall a, b :: 0 <= a < b < |r.requested| ==> r.requested[a] != r.requested[b])
    && r.finished <= r.removed && |r.removed| <= |r.finished| + 1
  }

  ghost predicate HistoryInv(s: State) {
    MailInv(s.mail) && RemovalHistoryInv(s.removals)
  }

  /** r's own callback is in the list, in the batch, or about to be appended. */
  ghost predicate HasItsCallback(s: State, r: RemovalId) {
    || RunRemovals(r) in s.mail.callbacks
    || RunRemovals(r) in s.mail.batch
    || exists t :: PcOf(s, t) == PostingRemoval(r)
  }

  ghost predicate RemovalInv(s: State) {
    && (forall r :: r in s.removals.queued ==> HasItsCallback(s, r))
    && (forall t :: PcOf(s, t).PostingRemoval? ==> PcOf(s, t).removal in s.removals.requested)
    && (forall r :: RunRemovals(r) in s.mail.posted ==> r in s.removals.requested)
    && (forall r :: RunRemovals(r) in s.mail.ran ==> r in s.removals.removed + s.removals.removing)
    && (forall a :: 0 <= a < |s.mail.ran| - 1 && s.mail.ran[a].RunRemovals?
          ==> s.mail.ran[a].removal in s.removals.finished)
  }

  ghost predicate Inv(s: State) {
    && TokenInv(s) && ReactorInv(s) && WakeInv(s) && QueueInv(s)
    && HistoryInv(s) && RemovalInv(s)
  }

  lemma InitInv(s: State)
    requires Init(s)
    ensures Inv(s)
  {
  }

  lemma RemEntryMembers(entries: seq<QueueId>, q: QueueId)
    ensures forall p :: p in RemEntry(entries, q) <==> p in entries && p != q
  {
  }

  // ---- Preservation ------------------------------------------------------------

  /** Only the caller itself moves in its own step. */
  lemma CallerFrame(s: State, step: Step, s': State)
    requires CallerStep(s, step, s')
    ensures forall u {:trigger PcOf(s, u)} {:trigger PcOf(s', u)} :: u != step.t ==> PcOf(s', u) == PcOf(s, u)
  {
  }

  /** A reactor step moves no caller. */
  lemma ReactorFrame(s: State, step: Step, s': State)
    requires ReactorStep(s, step, s')
    ensures forall u {:trigger PcOf(s, u)} {:trigger PcOf(s', u)} :: PcOf(s', u) == PcOf(s, u)
  {
  }

  lemma TokenKeptByCaller(s: State, step: Step, s': State)
    requires TokenInv(s) && CallerStep(s, step, s')
    ensures TokenInv(s')
  {
    CallerFrame(s, step, s');
    var after := PcOf(s', step.t);
  }

  lemma TokenKeptByReactor(s: State, step: Step, s': State)
    requires TokenInv(s) && ReactorStep(s, step, s')
    ensures TokenInv(s')
  {
    ReactorFrame(s, step, s');
  }

  lemma ReactorKeptByCaller(s: State, step: Step, s': State)
    requires ReactorInv(s) && CallerStep(s, step, s')
    ensures ReactorInv(s')
  {
    CallerFrame(s, step, s');
  }

  lemma ReactorKeptByReactor(s: State, step: Step, s': State)
    requires ReactorInv(s) && ReactorStep(s, step, s')
    ensures ReactorInv(s')
  {
    ReactorFrame(s, step, s');
  }

  lemma RemovalOperations(r: Removals, id: RemovalId)
    requires RemovalHistoryInv(r)
    ensures id !in r.requested ==> RemovalHistoryInv(Request(r, id))
    ensures r.removing == [] ==> RemovalHistoryInv(SwapOut(r))
    ensures r.removing != [] && r.finished == r.removed ==> RemovalHistoryInv(RemoveOne(r))
    ensures |r.finished| < |r.removed| ==> RemovalHistoryInv(FinishOne(r))
  {
    if r.removing != [] {
      assert r.removing == [r.removing[0]] + r.removing[1..];
    }
  }

  lemma HistoryKeptByCaller(s: State, step: Step, s': State)
    requires HistoryInv(s) && CallerStep(s, step, s')
    ensures HistoryInv(s')
  {
    if step.WakeUpWith? {
      MailOperations(s.mail, User(step.id));
    } else if step.PostRemoval? {
      MailOperations(s.mail, RunRemovals(PcOf(s, step.t).removal));
    } else if step.DeferRemoval? {
      RemovalOperations(s.removals, step.r);
    } else {
      assert s'.mail == s.mail && s'.removals == s.removals;
    }
  }

  lemma HistoryKeptByReactor(s: State, step: Step, s': State)
    requires HistoryInv(s) && ReactorInv(s) && ReactorStep(s, step, s')
    ensures HistoryInv(s')
  {
    if step.Take? || step.RunNext? || step.RemoveNext? || step.FinishRemoval? {
      MailOperations(s.mail, User(0));
      RemovalOperations(s.removals, 0);
    } else {
      assert s'.mail == s.mail && s'.removals == s.removals;
    }
  }

  /** A ring that is live or owed survives until the reactor absorbs it, and the only
      steps that absorb one lead to a phase in which the callbacks are about to be taken. */
  lemma RungKept(s: State, step: Step, s': State)
    requires TokenInv(s) && Rung(s) && NextStep(s, step, s')
    ensures Rung(s') || (s'.phase.Dispatching? && s.phase.Draining?)
  {
    if CallerStep(s, step, s') { RungKeptByCaller(s, step, s'); } else { RungKeptByReactor(s, step, s'); }
  }

  lemma RungKeptByCaller(s: State, step: Step, s': State)
    requires TokenInv(s) && Rung(s) && CallerStep(s, step, s')
    ensures Rung(s')
  {
    CallerFrame(s, step, s');
  }

  lemma RungKeptByReactor(s: State, step: Step, s': State)
    requires TokenInv(s) && Rung(s) && ReactorStep(s, step, s')
    ensures Rung(s') || (s'.phase.Dispatching? && s.phase.Draining?)
  {
    ReactorFrame(s, step, s');
  }

  lemma WakeKeptByCaller(s: State, step: Step, s': State)
    requires TokenInv(s) && WakeInv(s) && CallerStep(s, step, s')
    ensures WakeInv(s')
  {
    if Rung(s) {
      RungKeptByCaller(s, step, s');
    } else {
      assert PcOf(s', step.t).Ringing? || (s'.mail == s.mail && s'.running == s.running);
    }
  }

  lemma WakeKeptByReactor(s: State, step: Step, s': State)
    requires TokenInv(s) && WakeInv(s) && ReactorStep(s, step, s')
    ensures WakeInv(s')
  {
    if Rung(s) {
      RungKeptByReactor(s, step, s');
    }
  }

  lemma QueueKeptByCaller(s: State, step: Step, s': State)
    requires TokenInv(s) && QueueInv(s) && CallerStep(s, step, s')
    ensures QueueInv(s')
  {
    forall q | q in s'.queues.entries && q in s'.queues.bound && Size(s'.queues, q) > 0
      ensures Rung(s') || PushUnderWay(s', q) || WillVisit(s', q)
    {
      CallerFrame(s, step, s');
      RemEntryMembers(s.queues.entries, if step.RemQueue? then step.q else 0);
      if Rung(s) {
        RungKeptByCaller(s, step, s');
      } else {
        var after := PcOf(s', step.t);
        assert PcOf(s, step.t) == PcOf(s, step.t);
      }
    }
  }

  lemma QueueKeptByReactor(s: State, step: Step, s': State)
    requires TokenInv(s) && ReactorInv(s) && QueueInv(s) && ReactorStep(s, step, s')
    ensures QueueInv(s')
  {
    forall q | q in s'.queues.entries && q in s'.queues.bound && Size(s'.queues, q) > 0
      ensures Rung(s') || PushUnderWay(s', q) || WillVisit(s', q)
    {
      ReactorFrame(s, step, s');
      if Rung(s) {
        RungKeptByReactor(s, step, s');
      }
    }
  }

  lemma RemovalKeptByCaller(s: State, step: Step, s': State)
    requires ReactorInv(s) && RemovalInv(s) && CallerStep(s, step, s')
    ensures RemovalInv(s')
  {
    CallerFrame(s, step, s');
    var after := PcOf(s', step.t);
    if step.PostRemoval? {
      assert PcOf(s, step.t).removal in s.removals.requested;
    } else if !step.DeferRemoval? && !step.WakeUpWith? {
      assert s'.mail == s.mail && s'.removals == s.removals;
      assert !PcOf(s, step.t).PostingRemoval? && !PcOf(s', step.t).PostingRemoval?;
    }
  }

  /** A callback that starts finds every earlier removal finished; a removal callback takes
      every queued removal with it. */
  lemma RemovalKeptByStart(s: State, s': State)
    requires ReactorInv(s) && HistoryInv(s) && RemovalInv(s) && ReactorStep(s, RunNext, s')
    ensures RemovalInv(s')
  {
    ReactorFrame(s, RunNext, s');
    assert s.mail.batch[0] in s.mail.posted;
    assert s.mail.batch == [s.mail.batch[0]] + s.mail.batch[1..];
    forall a | 0 <= a < |s.mail.ran| && s.mail.ran[a].RunRemovals?
      ensures s.mail.ran[a].removal in s.removals.finished
    {
      assert RunRemovals(s.mail.ran[a].removal) in s.mail.ran;
    }
  }

  lemma RemovalKeptByReactor(s: State, step: Step, s': State)
    requires ReactorInv(s) && HistoryInv(s) && RemovalInv(s) && ReactorStep(s, step, s')
    ensures RemovalInv(s')
  {
    if step.RunNext? {
      RemovalKeptByStart(s, s');
    } else {
      ReactorFrame(s, step, s');
      assert s'.mail.ran == s.mail.ran && s'.mail.posted == s.mail.posted && s'.removals.queued == s.removals.queued;
      assert s'.mail.callbacks + s'.mail.batch == s.mail.batch + s.mail.callbacks || s'.mail == s.mail;
    }
  }

  lemma InvKept(s: State, step: Step, s': State)
    requires Inv(s) && NextStep(s, step, s')
    ensures Inv(s')
  {
    if CallerStep(s, step, s') {
      TokenKeptByCaller(s, step, s');
      ReactorKeptByCaller(s, step, s');
      WakeKeptByCaller(s, step, s');
      QueueKeptByCaller(s, step, s');
      HistoryKeptByCaller(s, step, s');
      RemovalKeptByCaller(s, step, s');
    } else {
      TokenKeptByReactor(s, step, s');
      ReactorKeptByReactor(s, step, s');
      WakeKeptByReactor(s, step, s');
      QueueKeptByReactor(s, step, s');
      HistoryKeptByReactor(s, step, s');
      RemovalKeptByReactor(s, step, s');
    }
  }
}
