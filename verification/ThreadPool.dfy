/** thread_pool as an interleaving step machine: any number of threads call `execute` while
    each worker thread runs its loop.

    A step is one critical section or one functor call.  `execute` holds m_free_mtx from
    taking a free index until the task is in that worker's slot, so at most one execute is
    between the two; a worker holds its entry mutex while it runs its functor. */
module ThreadPool {
  import opened Wrappers

  type Tid = nat
  type Task = nat   // a token for one non-empty function handed to execute

  datatype Worker =
    | Top          // about to lock its entry
    | Busy         // running the functor in its slot, entry mutex held
    | Finished     // slot emptied, index not yet back in m_free
    | Waiting
    | Exited

  /** An execute that has taken `index` off m_free and not yet stored `task`; None is an
      empty function. */
  datatype Execution = Execution(caller: Tid, index: nat, task: Option<Task>)

  datatype Pool = Pool(
    free: seq<nat>,
    slots: seq<Option<Task>>,
    workers: seq<Worker>,
    executing: Option<Execution>,
    running: bool,
    // History.
    accepted: seq<Task>,
    ran: seq<Task>,
    leaked: set<nat>,     // workers whose slot was given an empty function
    empties: nat)         // empty functions handed over

  datatype Step =
    | Reserve(caller: Tid, task: Option<Task>)
    | Assign
    | Look(i: nat)
    | Run(i: nat)
    | Return(i: nat)
    | Wake(i: nat)
    | Shutdown

  predicate NextStep(s: Pool, step: Step, s': Pool) {
    match step
    case Reserve(t, task) =>
      && s.running && s.executing == None && s.free != []
      && (task.Some? ==> task.value !in s.accepted)
      && s' == s.(free := s.free[..|s.free| - 1],
                  executing := Some(Execution(t, s.free[|s.free| - 1], task)),
                  accepted := if task.Some? then s.accepted + [task.value] else s.accepted)
    case Assign =>
      && s.executing.Some?
      && var e := s.executing.value;
         && e.index < |s.slots| == |s.workers| && !s.workers[e.index].Busy?
         && s' == s.(slots := s.slots[e.index := e.task], executing := None,
                     leaked := if e.task.None? then s.leaked + {e.index} else s.leaked,
                     empties := if e.task.None? then s.empties + 1 else s.empties)
    case Look(i) =>
      && i < |s.workers| == |s.slots| && s.workers[i].Top?
      && s' == s.(workers := s.workers[i := if s.slots[i].Some? then Busy else if s.running then Waiting else Exited])
    case Run(i) =>
      && i < |s.workers| == |s.slots| && s.workers[i].Busy? && s.slots[i].Some?
      && s' == s.(ran := s.ran + [s.slots[i].value], slots := s.slots[i := None], workers := s.workers[i := Finished])
    case Return(i) =>
      && i < |s.workers| && s.workers[i].Finished? && s.executing == None
      && s' == s.(free := s.free + [i], workers := s.workers[i := Top])
    case Wake(i) =>
      && i < |s.workers| == |s.slots| && s.workers[i].Waiting? && (s.slots[i].Some? || !s.running)
      && s' == s.(workers := s.workers[i := Top])
    // The destructor; no execute runs beside it or after it.
    case Shutdown => s.executing == None && s' == s.(running := false)
  }

  ghost predicate Next(s: Pool, s': Pool) {
    exists step :: NextStep(s, step, s')
  }

  ghost predicate Init(s: Pool) {
    && |s.free| == |s.slots| == |s.workers| && s.executing == None && s.running
    && (forall i :: 0 <= i < |s.free| ==> s.free[i] == i && s.slots[i] == None && s.workers[i] == Top)
    && s.accepted == [] && s.ran == [] && s.leaked == {} && s.empties == 0
  }

  ghost predicate Moves(tr: seq<Pool>, i: nat)
    requires i + 1 < |tr|
  {
    Next(tr[i], tr[i + 1])
  }

  ghost predicate Behavior(tr: seq<Pool>) {
    && |tr| > 0
    && Init(tr[0])
    && forall i :: 0 <= i < |tr| - 1 ==> Moves(tr, i)
  }

  // ---- Where a worker index is ---------------------------------------------------------

  predicate Reserved(s: Pool, i: nat) {
    s.executing.Some? && s.executing.value.index == i
  }

  predicate Assigned(s: Pool, i: nat)
    requires i < |s.slots| == |s.workers|
  {
    s.slots[i].Some? && !s.workers[i].Busy?
  }

  function One(b: bool): nat {
    if b then 1 else 0
  }

  /** Free, reserved, assigned, running, finished and not returned. */
  function InService(s: Pool, i: nat): nat
    requires i < |s.slots| == |s.workers|
  {
    One(i in s.free) + One(Reserved(s, i)) + One(Assigned(s, i))
    + One(s.workers[i].Busy?) + One(s.workers[i].Finished?)
  }

  function Places(s: Pool, i: nat): nat
    requires i < |s.slots| == |s.workers|
  {
    InService(s, i) + One(i in s.leaked)
  }

  ghost predicate PlacesInv(s: Pool) {
    && |s.slots| == |s.workers|
    && (forall i :: 0 <= i < |s.free| ==> s.free[i] < |s.slots|)
    && (forall i, j :: 0 <= i < j < |s.free| ==> s.free[i] != s.free[j])
    && (s.executing.Some? ==> s.executing.value.index < |s.slots|)
    && (forall i :: 0 <= i < |s.slots| ==> Places(s, i) == 1)
    && (forall i :: 0 <= i < |s.slots| && s.workers[i].Busy? ==> s.slots[i].Some?)
    && (forall i :: 0 <= i < |s.slots| && s.workers[i].Exited? ==> s.slots[i].None? && !s.running)
    && (!s.running ==> s.executing == None)
    && (forall i :: i in s.leaked ==> i < |s.slots|)
    && |s.leaked| == s.empties
  }

  /** Which indices are in m_free after a step. */
  lemma FreeAfter(s: Pool, step: Step, s': Pool)
    requires PlacesInv(s) && NextStep(s, step, s')
    ensures forall i :: i in s'.free <==>
              if step.Reserve? then i in s.free && i != s.free[|s.free| - 1]
              else if step.Return? then i in s.free || i == step.i else i in s.free
  {
    if step.Reserve? {
      var last := |s.free| - 1;
      assert s.free == s.free[..last] + [s.free[last]];
    }
  }

  lemma PlaceKept(s: Pool, step: Step, s': Pool, i: nat)
    requires PlacesInv(s) && NextStep(s, step, s') && i < |s.slots|
    ensures |s'.slots| == |s'.workers| == |s.slots| && Places(s', i) == 1
  {
    FreeAfter(s, step, s');
    assert Places(s, i) == 1;
  }

  /** m_free stays a list of different workers. */
  lemma FreeKept(s: Pool, step: Step, s': Pool)
    requires PlacesInv(s) && NextStep(s, step, s')
    ensures forall i :: 0 <= i < |s'.free| ==> s'.free[i] < |s'.slots|
    ensures forall i, j :: 0 <= i < j < |s'.free| ==> s'.free[i] != s'.free[j]
  {
    if step.Return? {
      assert Places(s, step.i) == 1;
    }
  }

  /** An empty function takes a worker that was not lost before. */
  lemma LeakedKept(s: Pool, step: Step, s': Pool)
    requires PlacesInv(s) && NextStep(s, step, s')
    ensures |s'.leaked| == s'.empties && forall i :: i in s'.leaked ==> i < |s'.slots|
  {
    if step.Assign? {
      assert Places(s, s.executing.value.index) == 1;
    }
  }

  lemma PlacesKept(s: Pool, step: Step, s': Pool)
    requires PlacesInv(s) && NextStep(s, step, s')
    ensures PlacesInv(s')
  {
    forall i | 0 <= i < |s.slots| ensures |s'.slots| == |s'.workers| == |s.slots| && Places(s', i) == 1 {
      PlaceKept(s, step, s', i);
    }
    FreeKept(s, step, s');
    LeakedKept(s, step, s');
    if step.Assign? {
      assert Places(s, s.executing.value.index) == 1;
    } else if step.Reserve? {
      assert s.free[|s.free| - 1] < |s.slots|;
    }
  }

  // ---- What happens to a task ------------------------------------------------------------

  ghost predicate InSlot(s: Pool, x: Task) {
    exists i :: 0 <= i < |s.slots| && s.slots[i] == Some(x)
  }

  /** Accepted and not yet run: on its way into a slot, or in one. */
  ghost predicate Held(s: Pool, x: Task) {
    InSlot(s, x) || (s.executing.Some? && s.executing.value.task == Some(x))
  }

  ghost predicate Distinct(xs: seq<Task>) {
    forall i, j :: 0 <= i < j < |xs| ==> xs[i] != xs[j]
  }

  ghost predicate TasksInv(s: Pool) {
    && Distinct(s.accepted) && Distinct(s.ran)
    && (forall x: Task :: x in s.accepted <==> x in s.ran || Held(s, x))
    && (forall x :: x in s.ran ==> !Held(s, x))
    && (forall i, j :: 0 <= i < j < |s.slots| && s.slots[i].Some? ==> s.slots[i] != s.slots[j])
    && (s.executing.Some? && s.executing.value.task.Some? ==> !InSlot(s, s.executing.value.task.value))
  }

  lemma HeldAfter(s: Pool, step: Step, s': Pool)
    requires PlacesInv(s) && TasksInv(s) && NextStep(s, step, s')
    ensures forall x: Task :: Held(s', x) <==>
              if step.Reserve? then Held(s, x) || step.task == Some(x)
              else if step.Run? then Held(s, x) && s.slots[step.i] != Some(x) else Held(s, x)
  {
    if step.Assign? {
      var e := s.executing.value;
      assert Places(s, e.index) == 1;
      forall x: Task | Held(s, x) ensures Held(s', x) {
        if InSlot(s, x) {
          var i :| 0 <= i < |s.slots| && s.slots[i] == Some(x);
          assert s'.slots[i] == Some(x);
        } else {
          assert s'.slots[e.index] == Some(x);
        }
      }
    } else if step.Run? {
      forall x: Task | Held(s, x) && s.slots[step.i] != Some(x) ensures Held(s', x) {
        if InSlot(s, x) {
          var i :| 0 <= i < |s.slots| && s.slots[i] == Some(x);
          assert s'.slots[i] == Some(x);
        }
      }
    } else {
      assert s'.slots == s.slots;
    }
  }

  lemma TasksKept(s: Pool, step: Step, s': Pool)
    requires PlacesInv(s) && TasksInv(s) && NextStep(s, step, s')
    ensures TasksInv(s')
  {
    HeldAfter(s, step, s');
    if step.Assign? {
      assert Places(s, s.executing.value.index) == 1;
    } else if step.Run? {
      assert Held(s, s.slots[step.i].value);
    }
  }

  // ---- Theorems --------------------------------------------------------------------------

  lemma {:induction false} Reachable(tr: seq<Pool>, k: nat)
    requires Behavior(tr) && k < |tr|
    ensures PlacesInv(tr[k]) && TasksInv(tr[k])
  {
    if k > 0 {
      Reachable(tr, k - 1);
      assert Moves(tr, k - 1);
      var step :| NextStep(tr[k - 1], step, tr[k]);
      PlacesKept(tr[k - 1], step, tr[k]);
      TasksKept(tr[k - 1], step, tr[k]);
    }
  }

  /** In every interleaving each worker index is in exactly one place. */
  lemma ExactlyOnePlace(tr: seq<Pool>, k: nat, i: nat)
    requires Behavior(tr) && k < |tr| && i < |tr[k].slots|
    ensures |tr[k].slots| == |tr[k].workers| && Places(tr[k], i) == 1
    ensures tr[k].empties == 0 ==> i !in tr[k].leaked
  {
    Reachable(tr, k);
  }

  /** execute never overwrites a task. */
  lemma NoSlotOverwritten(tr: seq<Pool>, k: nat)
    requires Behavior(tr) && k < |tr| && tr[k].executing.Some?
    ensures var i := tr[k].executing.value.index;
            i < |tr[k].slots| && tr[k].slots[i] == None
  {
    Reachable(tr, k);
    assert Places(tr[k], tr[k].executing.value.index) == 1;
  }

  /** Every accepted task is either still held or has been run, exactly once; nothing else
      is ever run. */
  lemma HeldOrRunOnce(tr: seq<Pool>, k: nat)
    requires Behavior(tr) && k < |tr|
    ensures forall x: Task :: x in tr[k].accepted <==> x in tr[k].ran || Held(tr[k], x)
    ensures forall x: Task :: !(x in tr[k].ran && Held(tr[k], x))
    ensures Distinct(tr[k].ran)
  {
    Reachable(tr, k);
  }

  /** A worker that has exited left an empty slot; once all have exited, every accepted task
      has been run. */
  lemma ExitsEmptyHanded(tr: seq<Pool>, k: nat)
    requires Behavior(tr) && k < |tr|
    ensures |tr[k].slots| == |tr[k].workers|
    ensures forall i :: 0 <= i < |tr[k].workers| && tr[k].workers[i].Exited? ==> tr[k].slots[i] == None
    ensures |tr[k].workers| > 0 && (forall i :: 0 <= i < |tr[k].workers| ==> tr[k].workers[i].Exited?)
            ==> forall x: Task :: x in tr[k].accepted <==> x in tr[k].ran
  {
    Reachable(tr, k);
    var s := tr[k];
    if |s.workers| > 0 && (forall i :: 0 <= i < |s.workers| ==> s.workers[i].Exited?) {
      assert s.workers[0].Exited?;
      assert forall x: Task :: !Held(s, x);
    }
  }

  ghost function Below(n: nat): (r: set<nat>)
    ensures |r| == n
    ensures forall i: nat :: i in r <==> i < n
  {
    if n == 0 then {} else Below(n - 1) + {n - 1}
  }

  ghost function Members(xs: seq<nat>): (r: set<nat>)
    ensures forall i :: i in r <==> i in xs
  {
    set i | i in xs
  }

  lemma {:induction false} DistinctSize(xs: seq<nat>)
    requires Distinct(xs)
    ensures |Members(xs)| == |xs|
  {
    if xs != [] {
      var n := |xs| - 1;
      DistinctSize(xs[..n]);
      assert xs == xs[..n] + [xs[n]];
      assert Members(xs) == Members(xs[..n]) + {xs[n]};
    } else {
      assert Members(xs) == {};
    }
  }

  /** count_active, |m_pool| - |m_free|, is the number of workers that are not free. */
  lemma CountActive(tr: seq<Pool>, k: nat)
    requires Behavior(tr) && k < |tr|
    ensures |tr[k].slots| - |tr[k].free| == |(set i | i in Below(|tr[k].slots|) && i !in tr[k].free)|
  {
    Reachable(tr, k);
    var s := tr[k];
    var all, free := Below(|s.slots|), Members(s.free);
    DistinctSize(s.free);
    assert (set i | i in all && i !in s.free) == all - free;
    assert free <= all;
  }

  /** The workers in none of the five places. */
  ghost function OutOfService(s: Pool): set<nat>
    requires |s.slots| == |s.workers|
  {
    set i | i in Below(|s.slots|) && InService(s, i) == 0
  }

  /** The five places account for every worker exactly as long as no empty function was handed
      over; each one that was has taken a different worker out of all five. */
  lemma LeaksExactlyEmptyFunctions(tr: seq<Pool>, k: nat)
    requires Behavior(tr) && k < |tr|
    ensures |tr[k].slots| == |tr[k].workers|
    ensures (forall i :: 0 <= i < |tr[k].slots| ==> InService(tr[k], i) == 1) <==> tr[k].empties == 0
    ensures |OutOfService(tr[k])| == tr[k].empties <= |tr[k].slots|
  {
    Reachable(tr, k);
    var s := tr[k];
    OutOfServiceIsLeaked(s);
    SubsetSmaller(s.leaked, Below(|s.slots|));
    if s.empties > 0 {
      var i :| i in s.leaked;
      assert i in OutOfService(s);
    }
  }

  lemma OutOfServiceIsLeaked(s: Pool)
    requires PlacesInv(s)
    ensures OutOfService(s) == s.leaked <= Below(|s.slots|)
    ensures forall i :: 0 <= i < |s.slots| ==> InService(s, i) == if i in s.leaked then 0 else 1
  {
    forall i | 0 <= i < |s.slots| ensures InService(s, i) == if i in s.leaked then 0 else 1 {
      assert Places(s, i) == 1;
    }
  }

  lemma {:induction false} LeakedGrows(tr: seq<Pool>, k: nat, l: nat)
    requires Behavior(tr) && k <= l < |tr|
    ensures tr[k].leaked <= tr[l].leaked && |tr[l].slots| == |tr[k].slots|
    decreases l
  {
    if k < l {
      LeakedGrows(tr, k, l - 1);
      assert Moves(tr, l - 1);
    }
  }

  /** A worker out of service never comes back: whatever happens later it is in none of the
      five places. */
  lemma LeakedForever(tr: seq<Pool>, k: nat, l: nat)
    requires Behavior(tr) && k <= l < |tr|
    ensures |tr[k].slots| == |tr[k].workers| == |tr[l].slots| == |tr[l].workers|
    ensures OutOfService(tr[k]) <= OutOfService(tr[l])
  {
    Reachable(tr, k);
    Reachable(tr, l);
    LeakedGrows(tr, k, l);
    OutOfServiceIsLeaked(tr[k]);
    OutOfServiceIsLeaked(tr[l]);
  }

  /** As many empty functions as there are workers stop the pool for good: no execute gets a
      worker any more. */
  lemma EmptyFunctionsStopThePool(tr: seq<Pool>, k: nat, l: nat, t: Tid, task: Option<Task>, s': Pool)
    requires Behavior(tr) && k <= l < |tr| && tr[k].empties == |tr[k].slots|
    ensures tr[l].free == [] && !NextStep(tr[l], Reserve(t, task), s')
  {
    LeaksExactlyEmptyFunctions(tr, k);
    Reachable(tr, l);
    LeakedForever(tr, k, l);
    SubsetOfEqualSize(OutOfService(tr[k]), Below(|tr[k].slots|));
    FreeIsInService(tr[l]);
  }

  lemma FreeIsInService(s: Pool)
    requires PlacesInv(s)
    ensures s.free != [] ==> !(Below(|s.slots|) <= OutOfService(s))
  {
    if s.free != [] {
      var i := s.free[0];
      assert i in Below(|s.slots|) && InService(s, i) >= 1;
    }
  }

  lemma SubsetOfEqualSize(a: set<nat>, b: set<nat>)
    requires a <= b && |a| == |b|
    ensures a == b
  {
    if a != b {
      var x :| x in b && x !in a;
      assert a <= b - {x};
      SubsetSmaller(a, b - {x});
    }
  }

  lemma SubsetSmaller(a: set<nat>, b: set<nat>)
    requires a <= b
    ensures |a| <= |b|
  {
    assert b == a + (b - a);
  }

  /** It does happen: one execute of an empty function empties a pool of one worker. */
  lemma EmptyFunctionLeaks() returns (tr: seq<Pool>)
    ensures Behavior(tr)
    ensures var s := tr[|tr| - 1];
            && |s.slots| == |s.workers| == 1 && s.empties == 1 && InService(s, 0) == 0 && s.free == []
  {
    var s0 := Pool([0], [None], [Top], None, true, [], [], {}, 0);
    var s1 := s0.(free := [], executing := Some(Execution(5, 0, None)));
    var s2 := s1.(executing := None, leaked := {0}, empties := 1);
    assert NextStep(s0, Reserve(5, None), s1);
    assert NextStep(s1, Assign, s2);
    tr := [s0, s1, s2];
    assert Moves(tr, 0) && Moves(tr, 1);
  }

  // ---- Progress --------------------------------------------------------------------------

  predicate IsWorkerStep(step: Step, i: nat) {
    match step
    case Look(j) => j == i
    case Run(j) => j == i
    case Return(j) => j == i
    case Wake(j) => j == i
    case _ => false
  }

  /** The worker's own steps, one after the other. */
  ghost predicate WorkerAt(run: seq<Pool>, i: nat, k: nat)
    requires k + 1 < |run|
  {
    exists step :: IsWorkerStep(step, i) && NextStep(run[k], step, run[k + 1])
  }

  ghost predicate WorkerRun(run: seq<Pool>, i: nat) {
    |run| > 0 && forall k :: 0 <= k < |run| - 1 ==> WorkerAt(run, i, k)
  }

  /** A worker has at most one thing to do in every state. */
  lemma WorkerIsDeterministic(s: Pool, i: nat, a: Step, s1: Pool, b: Step, s2: Pool)
    requires IsWorkerStep(a, i) && IsWorkerStep(b, i) && NextStep(s, a, s1) && NextStep(s, b, s2)
    ensures a == b && s1 == s2
  {
  }

  lemma PrependWorker(s: Pool, step: Step, run: seq<Pool>, i: nat) returns (longer: seq<Pool>)
    requires WorkerRun(run, i) && IsWorkerStep(step, i) && NextStep(s, step, run[0])
    ensures WorkerRun(longer, i) && longer[0] == s && longer[|longer| - 1] == run[|run| - 1]
  {
    longer := [s] + run;
    forall k | 0 <= k < |longer| - 1 ensures WorkerAt(longer, i, k) {
      assert k > 0 ==> WorkerAt(run, i, k - 1);
    }
  }

  /** From the moment it holds its entry: the task is run, once, and the worker is free again. */
  lemma BusyFinishes(s: Pool, i: nat) returns (run: seq<Pool>)
    requires i < |s.workers| == |s.slots| && s.workers[i].Busy? && s.slots[i].Some? && s.executing == None
    ensures WorkerRun(run, i) && run[0] == s
    ensures run[|run| - 1] == s.(ran := s.ran + [s.slots[i].value], slots := s.slots[i := None],
                                 workers := s.workers[i := Top], free := s.free + [i])
  {
    var done := s.(ran := s.ran + [s.slots[i].value], slots := s.slots[i := None], workers := s.workers[i := Finished]);
    var back := done.(free := s.free + [i], workers := s.workers[i := Top]);
    assert done.workers[i := Top] == s.workers[i := Top];
    run := PrependWorker(done, Return(i), [back], i);
    run := PrependWorker(s, Run(i), run, i);
  }

  /** In every interleaving, a worker with a task assigned needs nobody else, once no execute holds
      the free list: it runs that task and returns to the free list with an empty slot, also after
      shutdown. */
  lemma WorkerRunsItsTask(tr: seq<Pool>, k: nat, i: nat) returns (run: seq<Pool>)
    requires Behavior(tr) && k < |tr| && i < |tr[k].slots| && tr[k].slots[i].Some? && tr[k].executing == None
    ensures WorkerRun(run, i) && run[0] == tr[k]
    ensures var s, z := tr[k], run[|run| - 1];
            && z.ran == s.ran + [s.slots[i].value] && z.free == s.free + [i]
            && z.slots == s.slots[i := None] && z.accepted == s.accepted
  {
    Reachable(tr, k);
    var s := tr[k];
    assert Places(s, i) == 1;
    if s.workers[i].Busy? {
      run := BusyFinishes(s, i);
    } else {
      var top := s.(workers := s.workers[i := Top]);
      var busy := s.(workers := s.workers[i := Busy]);
      assert top.workers[i := Busy] == busy.workers;
      run := BusyFinishes(busy, i);
      run := PrependWorker(top, Look(i), run, i);
      if s.workers[i].Waiting? {
        run := PrependWorker(s, Wake(i), run, i);
      } else {
        assert top == s;
      }
    }
  }
}
