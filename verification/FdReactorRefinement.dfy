/** Both fd reactors refine the mailbox. */
module FdReactorRefinement {
  import opened Callbacks
  import opened FdReactor
  import opened FdReactorInvariant
  import M = Mailbox
  import T = FdReactorTheorems

  ghost function Ringers(callers: map<Tid, Pc>): set<Tid> {
    set t | t in callers && callers[t].Ringing?
  }

  ghost function Abstract(s: State): M.Box<Callback> {
    M.Box(s.mail.posted, |s.mail.ran| + |s.mail.batch|, |s.mail.ran|,
           s.phase.Polling?, Token(s.bell), Ringers(s.callers))
  }

  /** Every doorbell write succeeds, after retries. */
  predicate RingSucceeds(step: Step) {
    !step.RingFails? && !step.WriteFails?
  }

  ghost predicate CleanNext(s: State, s': State) {
    exists step :: RingSucceeds(step) && NextStep(s, step, s')
  }

  ghost predicate CleanMove(tr: seq<State>, i: nat)
    requires i + 1 < |tr|
  {
    CleanNext(tr[i], tr[i + 1])
  }

  ghost predicate CleanBehavior(tr: seq<State>) {
    && |tr| > 0
    && Init(tr[0])
    && forall i :: 0 <= i < |tr| - 1 ==> CleanMove(tr, i)
  }

  lemma RingersMove(callers: map<Tid, Pc>, t: Tid, pc: Pc)
    ensures Ringers(callers[t := pc]) == if pc.Ringing? then Ringers(callers) + {t} else Ringers(callers) - {t}
  {
  }

  /** The mailbox action of each step. */
  ghost function ActOf(s: State, step: Step): M.Act<Callback> {
    match step
    case WakeUp(t) => M.Nudge(t)
    case WakeUpWith(t, id) => M.Post(t, User(id))
    case Stop(t) => M.Nudge(t)
    case PostRemoval(t) =>
      if PcOf(s, t).PostingRemoval? then M.Post(t, RunRemovals(PcOf(s, t).removal)) else M.Stutter
    case NotifyPush(t) =>
      if PcOf(s, t).Enqueued? && PcOf(s, t).queue in s.queues.bound then M.Nudge(t) else M.Stutter
    case AddQueue(t, _) => M.Nudge(t)
    case Ring(t) => M.Ring(t)
    case Block(_) => M.Sleep
    case Interrupted => M.Wake
    case PollReturns(_) => M.Wake
    case Read => if s.bell.EventFd? && s.bell.count == 1 then M.Absorb else M.Stutter
    case Clear => M.Absorb
    case Take => M.Take
    case RunNext => M.RunNext
    case _ => M.Stutter
  }

  lemma RingRefines(s: State, t: Tid, s': State)
    requires CallerStep(s, Ring(t), s')
    ensures M.Step(Abstract(s), M.Ring(t), Abstract(s'))
  {
    RingersMove(s.callers, t, PcOf(s', t));
    assert t in Ringers(s.callers);
  }

  lemma CallRefines(s: State, step: Step, s': State)
    requires !step.Ring? && RingSucceeds(step) && CallerStep(s, step, s')
    ensures M.Step(Abstract(s), ActOf(s, step), Abstract(s'))
  {
    var t := step.t;
    var pc := PcOf(s', t);
    RingersMove(s.callers, t, pc);
    assert !PcOf(s, t).Ringing? ==> t !in Ringers(s.callers);
    assert Token(s'.bell) == Token(s.bell) && s'.phase == s.phase;
    assert s'.callers == s.callers || s'.callers == s.callers[t := pc];
  }

  lemma CallerStepRefines(s: State, step: Step, s': State)
    requires RingSucceeds(step) && CallerStep(s, step, s')
    ensures M.Step(Abstract(s), ActOf(s, step), Abstract(s'))
  {
    if step.Ring? { RingRefines(s, step.t, s'); } else { CallRefines(s, step, s'); }
  }

  lemma ReactorStepRefines(s: State, step: Step, s': State)
    requires Inv(s) && ReactorStep(s, step, s')
    requires !s.lost
    ensures M.Step(Abstract(s), ActOf(s, step), Abstract(s'))
  {
    if step.Block? {
      BlockIsSafe(s);
    }
  }

  lemma BlockIsSafe(s: State)
    requires Inv(s) && !s.lost && s.phase.Arming?
    ensures M.SafeToSleep(Abstract(s))
  {
    if s.mail.callbacks != [] && !Token(s.bell) {
      var t: Tid :| PcOf(s, t).Ringing?;
      assert t in Ringers(s.callers);
    }
  }

  lemma StaysClean(s: State, step: Step, s': State)
    requires !s.lost && RingSucceeds(step) && NextStep(s, step, s')
    ensures !s'.lost
  {
    if CallerStep(s, step, s') { CallerStaysClean(s, step, s'); } else { ReactorStaysClean(s, step, s'); }
  }

  lemma CallerStaysClean(s: State, step: Step, s': State)
    requires !s.lost && RingSucceeds(step) && CallerStep(s, step, s')
    ensures !s'.lost
  {
  }

  lemma ReactorStaysClean(s: State, step: Step, s': State)
    requires !s.lost && ReactorStep(s, step, s')
    ensures !s'.lost
  {
  }

  lemma {:induction false} CleanReachable(tr: seq<State>, i: nat)
    requires CleanBehavior(tr) && i < |tr|
    ensures Inv(tr[i]) && !tr[i].lost
  {
    if i == 0 {
      InitInv(tr[0]);
    } else {
      CleanReachable(tr, i - 1);
      assert CleanMove(tr, i - 1);
      var step :| RingSucceeds(step) && NextStep(tr[i - 1], step, tr[i]);
      InvKept(tr[i - 1], step, tr[i]);
      StaysClean(tr[i - 1], step, tr[i]);
    }
  }

  lemma StepRefines(tr: seq<State>, i: nat)
    requires CleanBehavior(tr) && i < |tr| - 1
    ensures M.Next(Abstract(tr[i]), Abstract(tr[i + 1]))
  {
    CleanReachable(tr, i);
    assert CleanMove(tr, i);
    var s, s' := tr[i], tr[i + 1];
    var step :| RingSucceeds(step) && NextStep(s, step, s');
    if CallerStep(s, step, s') {
      CallerStepRefines(s, step, s');
    } else {
      ReactorStepRefines(s, step, s');
    }
  }

  /** Every behavior of either fd reactor is, seen through Abstract, a mailbox behavior. */
  lemma Refines(tr: seq<State>)
    requires CleanBehavior(tr)
    ensures M.Behavior(seq(|tr|, i requires 0 <= i < |tr| => Abstract(tr[i])))
  {
    var mails := seq(|tr|, i requires 0 <= i < |tr| => Abstract(tr[i]));
    forall i | 0 <= i < |tr| - 1 ensures M.Moves(mails, i) {
      StepRefines(tr, i);
    }
    assert Ringers(map[]) == {};
  }

  lemma CallerMailMoves(s: State, step: Step, s': State)
    requires CallerStep(s, step, s')
    ensures Follows(s.mail, s'.mail)
  {
  }

  lemma ReactorMailMoves(s: State, step: Step, s': State)
    requires ReactorInv(s) && ReactorStep(s, step, s')
    ensures Follows(s.mail, s'.mail)
  {
  }

  lemma MailMoves(s: State, s': State)
    requires ReactorInv(s) && Next(s, s')
    ensures Follows(s.mail, s'.mail)
  {
    var step :| NextStep(s, step, s');
    if CallerStep(s, step, s') { CallerMailMoves(s, step, s'); } else { ReactorMailMoves(s, step, s'); }
  }

  lemma MailMovesInTrace(tr: seq<State>, i: nat)
    requires Behavior(tr) && i + 1 < |tr|
    ensures Follows(tr[i].mail, tr[i + 1].mail)
  {
    T.Reachable(tr, i);
    assert Moves(tr, i);
    MailMoves(tr[i], tr[i + 1]);
  }

  lemma {:induction false} MailFollows(tr: seq<State>, i: nat, j: nat)
    requires Behavior(tr) && i <= j < |tr|
    ensures Follows(tr[i].mail, tr[j].mail)
    decreases j
  {
    if i < j {
      MailFollows(tr, i, j - 1);
      MailMovesInTrace(tr, j - 1);
      FollowsTransitive(tr[i].mail, tr[j - 1].mail, tr[j].mail);
    }
  }

  /** Callbacks run in the order they were appended and at most once, and a callback
      posted while a batch runs waits until a later batch is taken; all this whether or not
      rings succeed. */
  lemma CallbacksInOrder(tr: seq<State>, i: nat, j: nat)
    requires Behavior(tr) && i <= j < |tr|
    ensures tr[i].mail.posted <= tr[j].mail.posted
    ensures tr[i].mail.ran <= tr[j].mail.ran <= tr[j].mail.posted
    ensures |tr[j].mail.ran + tr[j].mail.batch| == |tr[i].mail.ran + tr[i].mail.batch|
            ==> tr[j].mail.ran <= tr[i].mail.posted
  {
    T.Reachable(tr, i);
    T.Reachable(tr, j);
    MailFollows(tr, i, j);
    OnlyTakenIsRun(tr[i].mail, tr[j].mail);
  }

  /** Waiting in poll or epoll_wait is safe in the mailbox's sense, with or without a timeout. */
  lemma WaitsOnlyWhenSafe(tr: seq<State>, i: nat)
    requires CleanBehavior(tr) && i < |tr| && tr[i].phase.Polling?
    ensures tr[i].mail.callbacks == [] || Token(tr[i].bell) || RingOwed(tr[i])
  {
    Refines(tr);
    var mails := seq(|tr|, i requires 0 <= i < |tr| => Abstract(tr[i]));
    M.SleepsOnlyWhenSafe(mails, i);
    CleanReachable(tr, i);
    if Ringers(tr[i].callers) != {} {
      var t :| t in Ringers(tr[i].callers);
      assert PcOf(tr[i], t).Ringing?;
    }
  }
}
