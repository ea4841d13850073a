/** The notification pass of the FdReactor machine is the one that reactor_queues makes: the same
    queues in the same order, the same registrations afterwards, and the same backlog flag. */
module QueuePass {
  import opened Callbacks
  import opened FdReactor
  import R = ReactorQueues

  /** The machine knows a registration by its queue. */
  function Keys(es: seq<R.Entry>): (keys: seq<QueueId>)
    ensures |keys| == |es| && forall i :: 0 <= i < |es| ==> keys[i] == es[i].key
  {
    seq(|es|, i requires 0 <= i < |es| => es[i].key)
  }

  // ---- add and rem -----------------------------------------------------------------------

  lemma AddedKeys(es: seq<R.Entry>, q: QueueId, cb: R.Cb)
    ensures Keys(R.Added(es, q, cb)) == AddEntry(Keys(es), q)
  {
    var i := R.Find(es, q, 0);
    assert i < |es| ==> Keys(es)[i] == q;
    assert forall j :: 0 <= j < |es| && i == |es| ==> Keys(es)[j] != q;
  }

  lemma {:induction false} RemEntryLast(keys: seq<QueueId>, k: QueueId, q: QueueId)
    ensures RemEntry(keys + [k], q) == RemEntry(keys, q) + (if k != q then [k] else [])
  {
    if keys != [] {
      assert (keys + [k])[1..] == keys[1..] + [k];
      RemEntryLast(keys[1..], k, q);
    }
  }

  lemma {:induction false} OthersKeys(es: seq<R.Entry>, q: QueueId)
    ensures Keys(R.Others(es, q)) == RemEntry(Keys(es), q)
  {
    if es != [] {
      var n := |es| - 1;
      OthersKeys(es[..n], q);
      assert Keys(es) == Keys(es[..n]) + [es[n].key];
      RemEntryLast(Keys(es[..n]), es[n].key, q);
    }
  }

  /** A handler that registers a queue, or unregisters one, does so to both. */
  lemma HandlerRegisters(s: State, now: seq<R.Entry>, t: Tid, q: QueueId, cb: R.Cb)
    requires s.queues.entries == Keys(now) && CallerEnabled(s, AddQueue(t, q))
    ensures CallerEffect(s, AddQueue(t, q)).queues.entries == Keys(R.Changed(now, R.Register(q, cb)))
  {
    AddedKeys(now, q, cb);
  }

  lemma HandlerUnregisters(s: State, now: seq<R.Entry>, t: Tid, q: QueueId)
    requires s.queues.entries == Keys(now) && CallerEnabled(s, RemQueue(t, q))
    ensures CallerEffect(s, RemQueue(t, q)).queues.entries == Keys(R.Changed(now, R.Unregister(q)))
  {
    OthersKeys(now, q);
  }

  // ---- One pass --------------------------------------------------------------------------

  /** The machine is about to visit entry n of the snapshot es. */
  ghost predicate At(s: State, es: seq<R.Entry>, n: nat, now: seq<R.Entry>, data: R.Data, backlog: bool) {
    && ReactorFree(s) && s.phase == Notifying(Keys(es), n, backlog, false)
    && s.queues.entries == Keys(now) && s.queues.data == data
  }

  /** What the handler of entry n has made of the machine's queues when it returns. */
  ghost predicate HandlerDone(s: State, h: State, now: seq<R.Entry>, data: R.Data) {
    && ReactorFree(h) && s.phase.Notifying? && h.phase == s.phase.(inHandler := true)
    && h.queues.entries == Keys(now) && h.queues.data == data
  }

  lemma PassOverMirrors(s: State, es: seq<R.Entry>, n: nat, now: seq<R.Entry>, data: R.Data, backlog: bool)
    requires n < |es| && At(s, es, n, now, data, backlog) && R.Size(data, es[n].key) == 0
    ensures ReactorEnabled(s, VisitQueue) && At(ReactorEffect(s, VisitQueue), es, n + 1, now, data, backlog)
  {
  }

  lemma TurnMirrors(s: State, h: State, es: seq<R.Entry>, n: nat, now: seq<R.Entry>, data: R.Data, backlog: bool,
                    now': seq<R.Entry>, data': R.Data)
    requires n < |es| && At(s, es, n, now, data, backlog) && R.Size(data, es[n].key) > 0
    requires HandlerDone(s, h, now', data')
    ensures ReactorEnabled(s, VisitQueue) && ReactorEffect(s, VisitQueue).phase == h.phase
    ensures ReactorEnabled(h, LeaveQueue)
    ensures At(ReactorEffect(h, LeaveQueue), es, n + 1, now', data', backlog || R.Size(data', es[n].key) > 0)
  {
  }

  /** The machine is where reactor_queues is after n visits, when callback i changes the queues by
      `effect` and the registrations by behave(i). */
  ghost predicate AtVisit(s: State, es: seq<R.Entry>, data: R.Data, effect: R.Effect, behave: nat -> seq<R.Change>,
                          n: nat)
    requires n <= |es|
  {
    At(s, es, n, R.EntriesAfter(es, data, effect, behave, n), R.DataAfter(es, data, effect, n),
       R.Backlog(es, data, effect, n))
  }

  /** The visit of entry n takes the machine from s to s', through the return h of its handler if
      the queue has data. */
  ghost predicate Visit(s: State, h: State, s': State, es: seq<R.Entry>, data: R.Data, effect: R.Effect,
                        behave: nat -> seq<R.Change>, n: nat)
    requires n < |es|
  {
    if R.Size(R.DataAfter(es, data, effect, n), es[n].key) == 0 then ReactorStep(s, VisitQueue, s')
    else
      && HandlerDone(s, h, R.EntriesAfter(es, data, effect, behave, n + 1), R.DataAfter(es, data, effect, n + 1))
      && ReactorStep(h, LeaveQueue, s')
  }

  lemma VisitMirrors(s: State, h: State, s': State, es: seq<R.Entry>, data: R.Data, effect: R.Effect,
                     behave: nat -> seq<R.Change>, n: nat)
    requires n < |es| && AtVisit(s, es, data, effect, behave, n) && Visit(s, h, s', es, data, effect, behave, n)
    ensures AtVisit(s', es, data, effect, behave, n + 1)
  {
    var now, at := R.EntriesAfter(es, data, effect, behave, n), R.DataAfter(es, data, effect, n);
    var backlog := R.Backlog(es, data, effect, n);
    if R.Size(at, es[n].key) == 0 {
      PassOverMirrors(s, es, n, now, at, backlog);
      R.PassOver(es, data, effect, behave, n, now, at, backlog);
    } else {
      R.TakeTurn(es, data, effect, behave, n, now, at, backlog);
      TurnMirrors(s, h, es, n, now, at, backlog, R.EntriesAfter(es, data, effect, behave, n + 1),
                  R.DataAfter(es, data, effect, n + 1));
    }
  }

  /** The machine's states before each visit, and at the return of each handler. */
  ghost predicate VisitAt(before: seq<State>, handled: seq<State>, es: seq<R.Entry>, data: R.Data, effect: R.Effect,
                          behave: nat -> seq<R.Change>, i: nat)
    requires i < |es| == |handled| && |before| == |es| + 1
  {
    Visit(before[i], handled[i], before[i + 1], es, data, effect, behave, i)
  }

  /** What holds at the start and is kept by each visit holds at the end. */
  lemma {:induction false} VisitInduction(p: nat -> bool, n: nat)
    requires p(0) && forall i :: 0 <= i < n && p(i) ==> p(i + 1)
    ensures p(n)
  {
    if n > 0 {
      VisitInduction(p, n - 1);
    }
  }

  lemma VisitsMirror(before: seq<State>, handled: seq<State>, es: seq<R.Entry>, data: R.Data,
                     effect: R.Effect, behave: nat -> seq<R.Change>)
    requires |es| == |handled| && |before| == |es| + 1 && AtVisit(before[0], es, data, effect, behave, 0)
    requires forall i :: 0 <= i < |es| ==> VisitAt(before, handled, es, data, effect, behave, i)
    ensures AtVisit(before[|es|], es, data, effect, behave, |es|)
  {
    var p := (i: nat) => i <= |es| && AtVisit(before[i], es, data, effect, behave, i);
    forall i | 0 <= i < |es| && p(i) ensures p(i + 1) {
      assert VisitAt(before, handled, es, data, effect, behave, i);
      VisitMirrors(before[i], handled[i], before[i + 1], es, data, effect, behave, i);
    }
    VisitInduction(p, |es|);
  }

  /** From the snapshot to the end of the pass the machine ends with the registrations, the data
      and the backlog flag of reactor_queues' notify. */
  lemma PassMirrorsNotify(s: State, before: seq<State>, handled: seq<State>, es: seq<R.Entry>, effect: R.Effect,
                          behave: nat -> seq<R.Change>)
    requires ReactorEnabled(s, Snapshot) && s.queues.entries == Keys(es) && es != []
    requires |handled| == |es| && |before| == |es| + 1 && ReactorStep(s, Snapshot, before[0])
    requires forall i :: 0 <= i < |es| ==> VisitAt(before, handled, es, s.queues.data, effect, behave, i)
    ensures ReactorEnabled(before[|es|], EndNotify)
    ensures var z := ReactorEffect(before[|es|], EndNotify).queues;
            && z.entries == Keys(R.EntriesAfter(es, s.queues.data, effect, behave, |es|))
            && z.data == R.DataAfter(es, s.queues.data, effect, |es|)
            && z.backlog == R.Backlog(es, s.queues.data, effect, |es|)
  {
    VisitsMirror(before, handled, es, s.queues.data, effect, behave);
  }
}
