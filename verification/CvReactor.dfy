/** cv_reactor as an interleaving step machine, refining the same mailbox.

    The doorbell is the boolean m_wakeup_req, written under m_wakeup_mtx.  The reactor
    holds that mutex from before it evaluates the wait predicate until it blocks, and
    again when the wait returns; m_running is read by the predicate but stored by `stop`
    without the mutex. */
module CvReactor {
  import opened Callbacks
  import M = Mailbox

  /** Ringing: in wake_up, list append done, critical section ahead. */
  datatype Pc = Idle | Ringing

  datatype Phase =
    | Created
    | Top
    | Locked        // mutex held, about to evaluate the predicate
    | Committed     // mutex held, predicate was false, about to block
    | Blocked       // waiting on the condition variable, mutex released
    | Notified      // still to reacquire the mutex after a notification
    | Returned      // wait_for has returned, mutex held
    | Dispatching   // queue handlers
    | Running       // wake-up callbacks
    | Tidying       // timers
    | Exited

  datatype State = State(req: bool, callers: map<Tid, Pc>, running: bool, mail: Mail, phase: Phase)

  datatype Step =
    | WakeUp(t: Tid)
    | WakeUpWith(t: Tid, id: nat)
    | Stop(t: Tid)
    | Ring(t: Tid)
    | Start
    | TestRunning
    | Evaluate
    | Block
    | Reacquire
    | Spurious
    | TimeOut
    | Leave
    | Take
    | RunNext
    | EndBatch
    | EndPass

  function PcOf(s: State, t: Tid): Pc {
    if t in s.callers then s.callers[t] else Idle
  }

  predicate MutexHeld(p: Phase) {
    p.Locked? || p.Committed? || p.Returned?
  }

  predicate InCallback(p: Phase) {
    p.Created? || p.Dispatching? || p.Running? || p.Tidying?
  }

  predicate MayCall(s: State, t: Tid) {
    PcOf(s, t).Idle? && (t == REACTOR ==> InCallback(s.phase))
  }

  predicate NextStep(s: State, step: Step, s': State) {
    match step
    case WakeUp(t) => MayCall(s, t) && s' == s.(callers := s.callers[t := Ringing])
    case WakeUpWith(t, id) =>
      MayCall(s, t) && s' == s.(callers := s.callers[t := Ringing], mail := Append(s.mail, User(id)))
    case Stop(t) => MayCall(s, t) && s' == s.(callers := s.callers[t := Ringing], running := false)
    // The critical section of wake_up: set the flag and notify.
    case Ring(t) =>
      && PcOf(s, t).Ringing? && !MutexHeld(s.phase)
      && s' == s.(callers := s.callers[t := Idle], req := true,
                  phase := if s.phase.Blocked? then Notified else s.phase)
    case _ => PcOf(s, REACTOR).Idle? && ReactorStep(s, step, s')
  }

  predicate ReactorStep(s: State, step: Step, s': State) {
    match step
    case Start => s.phase.Created? && s' == s.(running := true, phase := Top)
    case TestRunning => s.phase.Top? && s' == s.(phase := if s.running then Locked else Exited)
    case Evaluate => s.phase.Locked? && s' == s.(phase := if s.req || !s.running then Returned else Committed)
    case Block => s.phase.Committed? && s' == s.(phase := Blocked)
    case Reacquire => s.phase.Notified? && s' == s.(phase := Locked)
    case Spurious => s.phase.Blocked? && s' == s.(phase := Locked)
    case TimeOut => s.phase.Blocked? && s' == s.(phase := Returned)
    case Leave =>
      && s.phase.Returned?
      && s' == if !s.running then s.(phase := Exited) else s.(req := false, phase := Dispatching)
    case Take => s.phase.Dispatching? && s' == s.(mail := TakeBatch(s.mail), phase := Running)
    case RunNext => s.phase.Running? && s.mail.batch != [] && s' == s.(mail := StartNext(s.mail))
    case EndBatch => s.phase.Running? && s.mail.batch == [] && s' == s.(phase := Tidying)
    case EndPass => s.phase.Tidying? && s' == s.(phase := Top)
    case _ => false
  }

  ghost predicate Next(s: State, s': State) {
    exists step :: NextStep(s, step, s')
  }

  ghost predicate Init(s: State) {
    s == State(false, map[], false, Mail([], [], [], []), Created)
  }

  ghost predicate Moves(tr: seq<State>, i: nat)
    requires i + 1 < |tr|
  {
    Next(tr[i], tr[i + 1])
  }

  ghost predicate Behavior(tr: seq<State>) {
    && |tr| > 0
    && Init(tr[0])
    && forall i :: 0 <= i < |tr| - 1 ==> Moves(tr, i)
  }

  ghost predicate RingOwed(s: State) {
    exists t :: PcOf(s, t).Ringing?
  }

  ghost predicate Inv(s: State) {
    && (!InCallback(s.phase) ==> PcOf(s, REACTOR).Idle?)
    && (!s.phase.Running? ==> s.mail.batch == [])
    && (s.phase.Committed? || s.phase.Blocked? ==> !s.req && (!s.running ==> RingOwed(s)))
    && (s.phase.Notified? ==> s.req)
    && (s.mail.callbacks != [] && !s.phase.Dispatching? && !s.phase.Exited? ==> s.req || RingOwed(s))
    && MailInv(s.mail)
  }

  lemma InvKept(s: State, step: Step, s': State)
    requires Inv(s) && NextStep(s, step, s')
    ensures Inv(s')
  {
    MailOperations(s.mail, User(if step.WakeUpWith? then step.id else 0));
    forall u ensures u in s.callers ==> s.callers[u] == PcOf(s, u) {}
    if step.WakeUp? || step.WakeUpWith? || step.Stop? {
      assert PcOf(s', step.t).Ringing?;
    } else if !step.Ring? && RingOwed(s) {
      var u :| PcOf(s, u).Ringing?;
      assert PcOf(s', u).Ringing?;
    }
  }

  lemma {:induction false} Reachable(tr: seq<State>, i: nat)
    requires Behavior(tr) && i < |tr|
    ensures Inv(tr[i])
  {
    if i > 0 {
      Reachable(tr, i - 1);
      assert Moves(tr, i - 1);
      var step :| NextStep(tr[i - 1], step, tr[i]);
      InvKept(tr[i - 1], step, tr[i]);
    }
  }

  /** Blocked on the condition variable with a callback or a stop request outstanding,
      another thread is still about to set the flag and notify. */
  lemma NoLostWakeUp(tr: seq<State>, i: nat)
    requires Behavior(tr) && i < |tr| && tr[i].phase.Blocked?
    requires tr[i].mail.callbacks != [] || !tr[i].running
    ensures !tr[i].req && exists t :: t != REACTOR && PcOf(tr[i], t).Ringing?
  {
    Reachable(tr, i);
    var t :| PcOf(tr[i], t).Ringing?;
    assert t != REACTOR;
  }

  ghost function Ringers(callers: map<Tid, Pc>): set<Tid> {
    set t | t in callers && callers[t].Ringing?
  }

  ghost function Abstract(s: State): M.Box<Callback> {
    M.Box(s.mail.posted, |s.mail.ran| + |s.mail.batch|, |s.mail.ran|,
           s.phase.Blocked? || s.phase.Notified?, s.req, Ringers(s.callers))
  }

  /** The mailbox action of each step. */
  ghost function ActOf(s: State, step: Step): M.Act<Callback> {
    match step
    case WakeUp(t) => M.Nudge(t)
    case WakeUpWith(t, id) => M.Post(t, User(id))
    case Stop(t) => M.Nudge(t)
    case Ring(t) => M.Ring(t)
    case Block => M.Sleep
    case Reacquire => M.Wake
    case Spurious => M.Wake
    case TimeOut => M.Wake
    case Leave => if s.running then M.Absorb else M.Stutter
    case Take => M.Take
    case RunNext => M.RunNext
    case _ => M.Stutter
  }

  lemma StepRefines(s: State, step: Step, s': State)
    requires Inv(s) && NextStep(s, step, s')
    ensures M.Step(Abstract(s), ActOf(s, step), Abstract(s'))
  {
    if step.WakeUp? || step.WakeUpWith? || step.Stop? {
      assert Ringers(s'.callers) == Ringers(s.callers) + {step.t};
    } else if step.Ring? {
      assert Ringers(s'.callers) == Ringers(s.callers) - {step.t};
    } else if step.Block? && s.mail.callbacks != [] {
      var t: Tid :| PcOf(s, t).Ringing?;
      assert t in Ringers(s.callers);
    }
  }

  /** Every behavior of the cv reactor is, seen through Abstract, a mailbox behavior. */
  lemma Refines(tr: seq<State>)
    requires Behavior(tr)
    ensures M.Behavior(seq(|tr|, i requires 0 <= i < |tr| => Abstract(tr[i])))
  {
    var mails := seq(|tr|, i requires 0 <= i < |tr| => Abstract(tr[i]));
    forall i | 0 <= i < |tr| - 1 ensures M.Moves(mails, i) {
      Reachable(tr, i);
      assert Moves(tr, i);
      var step :| NextStep(tr[i], step, tr[i + 1]);
      StepRefines(tr[i], step, tr[i + 1]);
    }
    assert Ringers(map[]) == {};
  }

  /** Callbacks run in the order they were appended and at most once, and a callback
      posted while a batch runs waits until a later batch is taken. */
  lemma CallbacksInOrder(tr: seq<State>, i: nat, j: nat)
    requires Behavior(tr) && i <= j < |tr|
    ensures tr[i].mail.posted <= tr[j].mail.posted
    ensures tr[i].mail.ran <= tr[j].mail.ran <= tr[j].mail.posted
    ensures |tr[j].mail.ran + tr[j].mail.batch| == |tr[i].mail.ran + tr[i].mail.batch|
            ==> tr[j].mail.ran <= tr[i].mail.posted
  {
    Refines(tr);
    var mails := seq(|tr|, i requires 0 <= i < |tr| => Abstract(tr[i]));
    M.InOrderAtMostOnce(mails, i, j);
    Reachable(tr, i);
    Reachable(tr, j);
    assert M.Delivered(mails[i]) == tr[i].mail.ran;
    assert M.Delivered(mails[j]) == tr[j].mail.ran;
  }

  // ---- Delivery ------------------------------------------------------------------------

  /** A step of the reactor thread alone. */
  ghost predicate Solo(s: State, s': State) {
    PcOf(s, REACTOR).Idle? && exists step :: ReactorStep(s, step, s')
  }

  ghost predicate SoloAt(run: seq<State>, i: nat)
    requires i + 1 < |run|
  {
    Solo(run[i], run[i + 1])
  }

  /** The reactor thread alone, without blocking. */
  ghost predicate SoloRun(run: seq<State>) {
    && |run| > 0
    && (forall i :: 0 <= i < |run| - 1 ==> SoloAt(run, i))
    && (forall i :: 0 <= i < |run| ==> !run[i].phase.Blocked?)
  }

  /** Apart from blocking, the reactor alone has one thing to do in every state. */
  lemma SoloIsDeterministic(s: State, a: State, b: State)
    requires Solo(s, a) && Solo(s, b) && !s.phase.Blocked?
    ensures a == b
  {
  }

  /** Two runs of the reactor alone agree as far as both go. */
  lemma {:induction false} OneWay(run: seq<State>, other: seq<State>, n: nat)
    requires SoloRun(run) && |other| > 0 && other[0] == run[0] && n < |run| && n < |other|
    requires forall i :: 0 <= i < |other| - 1 ==> SoloAt(other, i)
    ensures other[n] == run[n]
  {
    if n > 0 {
      OneWay(run, other, n - 1);
      assert SoloAt(run, n - 1) && SoloAt(other, n - 1);
      SoloIsDeterministic(run[n - 1], run[n], other[n]);
    }
  }

  ghost predicate AllReturned(s: State) {
    forall t :: PcOf(s, t).Idle?
  }

  lemma Prepend(s: State, step: Step, run: seq<State>) returns (longer: seq<State>)
    requires SoloRun(run) && PcOf(s, REACTOR).Idle? && ReactorStep(s, step, run[0]) && !s.phase.Blocked?
    ensures SoloRun(longer) && longer[0] == s && longer[|longer| - 1] == run[|run| - 1]
  {
    longer := [s] + run;
    forall i | 0 <= i < |longer| - 1 ensures SoloAt(longer, i) {
      assert i > 0 ==> SoloAt(run, i - 1);
    }
  }

  /** From inside a batch: the batch is finished, then the pass. */
  lemma {:induction false} FinishBatch(s: State) returns (run: seq<State>)
    requires s.phase.Running? && PcOf(s, REACTOR).Idle?
    ensures SoloRun(run) && run[0] == s
    ensures run[|run| - 1] == s.(phase := Top, mail := s.mail.(batch := [], ran := s.mail.ran + s.mail.batch))
    decreases |s.mail.batch|
  {
    if s.mail.batch == [] {
      var tidying := s.(phase := Tidying);
      run := Prepend(tidying, EndPass, [s.(phase := Top)]);
      run := Prepend(s, EndBatch, run);
    } else {
      run := FinishBatch(s.(mail := StartNext(s.mail)));
      run := Prepend(s, RunNext, run);
      assert s.mail.batch == [s.mail.batch[0]] + s.mail.batch[1..];
    }
  }

  /** From the return of wait_for: the flag is cleared and everything posted is run, or, when a
      stop was requested, the reactor leaves and runs nothing. */
  lemma LeaveServes(s: State) returns (run: seq<State>)
    requires Inv(s) && PcOf(s, REACTOR).Idle? && s.phase.Returned?
    ensures SoloRun(run) && run[0] == s
    ensures var z := run[|run| - 1];
            if s.running then z.phase.Top? && z.mail.ran == s.mail.posted && z.running && !z.req
            else z.phase.Exited? && z.mail == s.mail
  {
    if s.running {
      var dispatching := s.(req := false, phase := Dispatching);
      run := FinishBatch(dispatching.(mail := TakeBatch(s.mail), phase := Running));
      run := Prepend(dispatching, Take, run);
      run := Prepend(s, Leave, run);
    } else {
      run := Prepend(s, Leave, [s.(phase := Exited)]);
    }
  }

  /** The wait is over, or is about to be: the flag is set or a stop was requested. */
  predicate Waking(s: State) {
    s.phase.Returned? || s.phase.Notified? || (s.phase.Locked? && (s.req || !s.running))
  }

  /** In every behavior, once every caller has returned and the wait ends, for whatever reason,
      the reactor alone uses the flag up, runs every posted callback and goes on, unless a stop was requested: then
      it leaves `run`, and whatever was posted and not yet run stays behind.  However the reactor
      alone goes on, it is still in that pass or has completed it. */
  lemma PassServesOrLeaves(tr: seq<State>, i: nat) returns (run: seq<State>)
    requires Behavior(tr) && i < |tr| && AllReturned(tr[i]) && Waking(tr[i])
    ensures SoloRun(run) && run[0] == tr[i]
    ensures var z := run[|run| - 1];
            if tr[i].running then z.phase.Top? && z.mail.ran == tr[i].mail.posted && z.running && !z.req
            else z.phase.Exited? && z.mail == tr[i].mail
    ensures forall other: seq<State>, n: nat ::
              n < |run| && n < |other| && other[0] == tr[i] && (forall j :: 0 <= j < |other| - 1 ==> SoloAt(other, j))
              ==> other[n] == run[n]
  {
    Reachable(tr, i);
    var s := tr[i];
    var returned := s.(phase := Returned);
    run := LeaveServes(returned);
    if !s.phase.Returned? {
      var locked := s.(phase := Locked);
      run := Prepend(locked, Evaluate, run);
      if s.phase.Notified? {
        run := Prepend(s, Reacquire, run);
      }
    }
    forall other: seq<State>, n: nat
      | n < |run| && n < |other| && other[0] == s && (forall j :: 0 <= j < |other| - 1 ==> SoloAt(other, j))
      ensures other[n] == run[n]
    {
      OneWay(run, other, n);
    }
  }

  /** With the flag used up and no stop requested the reactor blocks again: it does not spin.  With
      either it does not. */
  lemma BlocksExactlyWhenQuiet(z: State)
    requires z.phase.Top? && z.running && PcOf(z, REACTOR).Idle?
    ensures NextStep(z, TestRunning, z.(phase := Locked))
    ensures !z.req ==> && NextStep(z.(phase := Locked), Evaluate, z.(phase := Committed))
                       && NextStep(z.(phase := Committed), Block, z.(phase := Blocked))
    ensures z.req ==> NextStep(z.(phase := Locked), Evaluate, z.(phase := Returned))
  {
  }

  /** Each call leaves its request where the theorems look for it. */
  lemma CallsAreRecorded(s: State, step: Step, s': State)
    requires NextStep(s, step, s')
    ensures step.WakeUpWith? ==> s'.mail.callbacks == s.mail.callbacks + [User(step.id)]
    ensures step.Stop? ==> !s'.running
    ensures step.Ring? ==> s'.req
  {
  }

  /** A stop requested in run is never forgotten. */
  lemma {:induction false} StopIsFinal(tr: seq<State>, i: nat, j: nat)
    requires Behavior(tr) && i <= j < |tr| && !tr[i].phase.Created? && !tr[i].running
    ensures !tr[j].running && !tr[j].phase.Created?
    decreases j
  {
    if i < j {
      StopIsFinal(tr, i, j - 1);
      assert Moves(tr, j - 1);
    }
  }
}
