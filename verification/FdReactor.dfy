/** poll_reactor and epoll_reactor as an interleaving step machine.

    Any number of threads call `wake_up`, `stop`, the deferred removals, queue pushes
    and queue registrations while one reactor thread executes `run`.  Each step is one
    action visible to another thread: a critical section, an atomic operation or a
    system call.  The two reactors share the pass order and differ in the doorbell, so
    the doorbell is a parameter: the poll reactor's flag and pipe, or the epoll
    reactor's semaphore eventfd.

    The reactor thread runs callbacks, and callbacks may make the same calls; it is
    therefore also a caller (thread REACTOR), and does not move on in `run` until the
    call it is in has returned. */
module FdReactor {
  import opened Callbacks

  type QueueId = nat

  /** `pending` is m_wake_pending and `bytes` what the wake pipe holds; `count` is the
      value of the semaphore eventfd. */
  datatype Bell = Pipe(pending: bool, bytes: nat, capacity: nat) | EventFd(count: nat)

  /** Where a thread is inside a call into the reactor. */
  datatype Pc =
    | Idle
    | PostingRemoval(removal: RemovalId)  // queued in m_removals, callback not yet posted
    | Enqueued(queue: QueueId)            // item enqueued, binding not yet read
    | Ringing                             // in wake_up, list append done, doorbell untouched
    | Writing                             // won the compare-and-swap, byte not yet written

  /** Where the reactor thread is in `run`. */
  datatype Phase =
    | Created                             // before run has set m_running
    | Top                                 // while (m_running)
    | Arming                              // computing the timeout
    | Polling(forever: bool)              // in poll / epoll_wait; no timeout iff forever
    | Draining(empty: bool)               // in the wake handler; empty: the read hit EAGAIN
    | Dispatching                         // fd callbacks
    | Running                             // wake-up callbacks
    | Notifying(snapshot: seq<QueueId>, next: nat, left: bool, inHandler: bool)
    | Tidying                             // cleanup and timers
    | Exited

  /** The deferred removals: m_removals, the ones run_removals has swapped out and not yet
      done, and the history of requests, removals and done_cb calls. */
  datatype Removals = Removals(queued: seq<RemovalId>, removing: seq<RemovalId>,
                               requested: seq<RemovalId>, removed: seq<RemovalId>, finished: seq<RemovalId>)

  /** The queues bound to this reactor, the registered ones, how many items each holds,
      and m_queue_backlog. */
  datatype Queues = Queues(bound: set<QueueId>, entries: seq<QueueId>, data: map<QueueId, nat>, backlog: bool)

  /** `lost`: the latest ring failed with an unexpected error, and no earlier one was live. */
  datatype State = State(bell: Bell, lost: bool, callers: map<Tid, Pc>, running: bool,
                         mail: Mail, removals: Removals, queues: Queues, phase: Phase)

  function PcOf(s: State, t: Tid): Pc {
    if t in s.callers then s.callers[t] else Idle
  }

  function Size(qs: Queues, q: QueueId): nat {
    if q in qs.data then qs.data[q] else 0
  }

  function Goto(s: State, t: Tid, pc: Pc): State {
    s.(callers := s.callers[t := pc])
  }

  function Request(r: Removals, id: RemovalId): Removals {
    r.(queued := r.queued + [id], requested := r.requested + [id])
  }

  function SwapOut(r: Removals): Removals {
    r.(removing := r.queued, queued := [])
  }

  function RemoveOne(r: Removals): Removals
    requires r.removing != []
  {
    r.(removing := r.removing[1..], removed := r.removed + [r.removing[0]])
  }

  function FinishOne(r: Removals): Removals
    requires |r.finished| < |r.removed|
  {
    r.(finished := r.removed[..|r.finished| + 1])
  }

  /** A ring is live: the next poll reports the doorbell or a writer is about to write. */
  predicate Token(b: Bell) {
    match b
    case Pipe(pending, _, _) => pending
    case EventFd(count) => count > 0
  }

  /** The reactor thread is inside some callback, or not in `run` yet.  The wake pipe is the
      first slot of the poll reactor; the eventfd may come anywhere in a batch of epoll events,
      so that fd callbacks run before it is read. */
  predicate InCallback(s: State) {
    match s.phase
    case Created => true
    case Draining(empty) => !empty && s.bell.EventFd?
    case Dispatching => true
    case Running => true
    case Notifying(_, _, _, inHandler) => inHandler
    case Tidying => true
    case _ => false
  }

  predicate MayCall(s: State, t: Tid) {
    PcOf(s, t).Idle? && (t == REACTOR ==> InCallback(s))
  }

  /** The reactor thread is in `run` itself, not inside a call made by a callback. */
  predicate ReactorFree(s: State) {
    PcOf(s, REACTOR).Idle?
  }

  function AddEntry(entries: seq<QueueId>, q: QueueId): seq<QueueId> {
    if q in entries then entries else entries + [q]
  }

  function RemEntry(entries: seq<QueueId>, q: QueueId): seq<QueueId> {
    if entries == [] then []
    else if entries[0] == q then RemEntry(entries[1..], q)
    else [entries[0]] + RemEntry(entries[1..], q)
  }

  datatype Step =
    // Callers.
    | WakeUp(t: Tid)
    | WakeUpWith(t: Tid, id: nat)
    | Stop(t: Tid)
    | DeferRemoval(t: Tid, r: RemovalId)
    | PostRemoval(t: Tid)
    | Push(t: Tid, q: QueueId, size: nat)
    | NotifyPush(t: Tid)
    | AddQueue(t: Tid, q: QueueId)
    | RemQueue(t: Tid, q: QueueId)
    | Shrink(t: Tid, q: QueueId, size: nat)
    | Ring(t: Tid)
    | RingFails(t: Tid)
    | Write(t: Tid)
    | WriteFull(t: Tid)
    | WriteFails(t: Tid)
    // The reactor thread.
    | Start
    | TestRunning
    | Block(hasDeadline: bool)
    | Interrupted
    | PollReturns(woken: bool)
    | Read
    | Clear
    | Take
    | RunNext
    | RemoveNext
    | FinishRemoval
    | Snapshot
    | VisitQueue
    | LeaveQueue
    | EndNotify
    | EndPass

  /** When a step of a calling thread can happen. */
  predicate CallerEnabled(s: State, step: Step) {
    match step
    case WakeUp(t) => MayCall(s, t)
    case WakeUpWith(t, _) => MayCall(s, t)
    case Stop(t) => MayCall(s, t)
    // In run the reactor thread removes at once; a call made before run counts as another thread's.
    // The number r stands for this one request.
    case DeferRemoval(t, r) => MayCall(s, t) && t != REACTOR && r !in s.removals.requested
    case PostRemoval(t) => PcOf(s, t).PostingRemoval?
    // An enqueue leaves at least one item, also when a full ring drops its oldest.
    case Push(t, _, size) => MayCall(s, t) && size > 0
    case NotifyPush(t) => PcOf(s, t).Enqueued?
    case AddQueue(t, _) => MayCall(s, t)
    case RemQueue(t, _) => MayCall(s, t)
    case Shrink(t, q, size) => MayCall(s, t) && size <= Size(s.queues, q)
    case Ring(t) => PcOf(s, t).Ringing?
    case RingFails(t) => PcOf(s, t).Ringing? && s.bell.EventFd?
    case Write(t) => PcOf(s, t).Writing? && s.bell.Pipe? && s.bell.bytes < s.bell.capacity
    case WriteFull(t) => PcOf(s, t).Writing? && s.bell.Pipe? && s.bell.bytes >= s.bell.capacity
    case WriteFails(t) => PcOf(s, t).Writing? && s.bell.Pipe?
    case _ => false
  }

  /** What a step of a calling thread does. */
  function CallerEffect(s: State, step: Step): State
    requires CallerEnabled(s, step)
  {
    match step
    // wake_up() without a callback.
    case WakeUp(t) => Goto(s, t, Ringing)
    case WakeUpWith(t, id) => Goto(s, t, Ringing).(mail := Append(s.mail, User(id)))
    case Stop(t) => Goto(s, t, Ringing).(running := false)
    case DeferRemoval(t, r) =>
      Goto(s, t, PostingRemoval(r)).(removals := Request(s.removals, r))
    case PostRemoval(t) =>
      Goto(s, t, Ringing).(mail := Append(s.mail, RunRemovals(PcOf(s, t).removal)))
    case Push(t, q, size) =>
      Goto(s, t, Enqueued(q)).(queues := s.queues.(data := s.queues.data[q := size]))
    case NotifyPush(t) =>
      Goto(s, t, if PcOf(s, t).queue in s.queues.bound then Ringing else Idle)
    case AddQueue(t, q) =>
      Goto(s, t, Ringing).(queues := s.queues.(entries := AddEntry(s.queues.entries, q)))
    case RemQueue(t, q) =>
      s.(queues := s.queues.(entries := RemEntry(s.queues.entries, q)))
    // pop or set_capacity, from any thread.
    case Shrink(t, q, size) =>
      s.(queues := s.queues.(data := s.queues.data[q := size]))
    // The compare-and-swap, or the eventfd write.
    case Ring(t) =>
      (match s.bell
       case Pipe(pending, bytes, capacity) =>
         if pending then Goto(s, t, Idle)
         else Goto(s, t, Writing).(bell := Pipe(true, bytes, capacity), lost := false)
       case EventFd(count) => Goto(s, t, Idle).(bell := EventFd(count + 1), lost := false))
    // The result of the eventfd write is ignored; a counter above zero still reports.
    case RingFails(t) => Goto(s, t, Idle).(lost := s.bell.count == 0)
    case Write(t) => Goto(s, t, Idle).(bell := s.bell.(bytes := s.bell.bytes + 1))
    case WriteFull(t) => Goto(s, t, Idle)
    // Neither EINTR, which is retried, nor EAGAIN.
    case WriteFails(t) => Goto(s, t, Idle).(bell := s.bell.(pending := false), lost := true)
  }

  /** When a step of the reactor thread can happen. */
  predicate ReactorEnabled(s: State, step: Step) {
    && ReactorFree(s)
    && match step
       case Start => s.phase.Created?
       case TestRunning => s.phase.Top?
       case Block(_) => s.phase.Arming?
       case Interrupted => s.phase.Polling?
       // poll reports the pipe exactly when it holds a byte; epoll reports at most as many
       // events as its cache holds, so it may leave a readable eventfd for a later pass.
       case PollReturns(woken) =>
         s.phase.Polling? && (match s.bell
                              case Pipe(_, bytes, _) => woken == (bytes > 0)
                              case EventFd(count) => woken ==> count > 0)
       case Read => s.phase == Draining(false)
       case Clear => s.phase == Draining(true) && s.bell.Pipe?
       case Take => s.phase.Dispatching?
       case RunNext => RemovalsDone(s) && s.mail.batch != []
       case RemoveNext => s.phase.Running? && s.removals.removing != [] && s.removals.finished == s.removals.removed
       case FinishRemoval => s.phase.Running? && |s.removals.finished| < |s.removals.removed|
       case Snapshot => RemovalsDone(s) && s.mail.batch == []
       case VisitQueue => s.phase.Notifying? && !s.phase.inHandler && s.phase.next < |s.phase.snapshot|
       case LeaveQueue => s.phase.Notifying? && s.phase.inHandler && s.phase.next < |s.phase.snapshot|
       case EndNotify => s.phase.Notifying? && !s.phase.inHandler && s.phase.next >= |s.phase.snapshot|
       case EndPass => s.phase.Tidying?
       case _ => false
  }

  /** Between two wake-up callbacks: the previous one has returned. */
  predicate RemovalsDone(s: State) {
    s.phase.Running? && s.removals.removing == [] && s.removals.finished == s.removals.removed
  }

  /** What a step of the reactor thread does. */
  function ReactorEffect(s: State, step: Step): State
    requires ReactorEnabled(s, step)
  {
    match step
    case Start => s.(running := true, phase := Top)
    case TestRunning => s.(phase := if s.running then Arming else Exited)
    case Block(hasDeadline) => s.(phase := Polling(!hasDeadline && !s.queues.backlog))
    case Interrupted => s.(phase := Top)
    case PollReturns(woken) => s.(phase := if woken then Draining(false) else Dispatching)
    // The pipe is read until it is empty; the semaphore is decremented once.
    case Read =>
      (match s.bell
       case Pipe(_, _, _) => s.(bell := s.bell.(bytes := 0), phase := Draining(true))
       case EventFd(count) => s.(bell := EventFd(if count > 0 then count - 1 else 0), phase := Dispatching))
    case Clear => s.(bell := s.bell.(pending := false), phase := Dispatching)
    case Take => s.(mail := TakeBatch(s.mail), phase := Running)
    case RunNext =>
      s.(mail := StartNext(s.mail),
         removals := if s.mail.batch[0].RunRemovals? then SwapOut(s.removals) else s.removals)
    case RemoveNext => s.(removals := RemoveOne(s.removals))
    case FinishRemoval => s.(removals := FinishOne(s.removals))
    case Snapshot =>
      if s.queues.entries == [] then s.(queues := s.queues.(backlog := false), phase := Tidying)
      else s.(phase := Notifying(s.queues.entries, 0, false, false))
    case VisitQueue =>
      s.(phase := if Size(s.queues, s.phase.snapshot[s.phase.next]) > 0
                  then s.phase.(inHandler := true)
                  else s.phase.(next := s.phase.next + 1))
    case LeaveQueue =>
      s.(phase := Notifying(s.phase.snapshot, s.phase.next + 1,
                            s.phase.left || Size(s.queues, s.phase.snapshot[s.phase.next]) > 0, false))
    case EndNotify => s.(queues := s.queues.(backlog := s.phase.left), phase := Tidying)
    case EndPass => s.(phase := Top)
  }

  predicate CallerStep(s: State, step: Step, s': State) {
    CallerEnabled(s, step) && s' == CallerEffect(s, step)
  }

  predicate ReactorStep(s: State, step: Step, s': State) {
    ReactorEnabled(s, step) && s' == ReactorEffect(s, step)
  }

  predicate NextStep(s: State, step: Step, s': State) {
    CallerStep(s, step, s') || ReactorStep(s, step, s')
  }

  ghost predicate Next(s: State, s': State) {
    exists step :: NextStep(s, step, s')
  }

  /** A new reactor: nothing has been asked for and `run` has not been entered. */
  predicate Init(s: State) {
    && (match s.bell
        case Pipe(pending, bytes, capacity) => !pending && bytes == 0 && capacity >= 1
        case EventFd(count) => count == 0)
    && !s.lost && s.callers == map[] && !s.running && s.phase == Created
    && s.mail == Mail([], [], [], [])
    && s.removals == Removals([], [], [], [], [])
    && s.queues == Queues(s.queues.bound, [], map[], false)
  }

  ghost predicate Moves(tr: seq<State>, i: nat)
    requires i + 1 < |tr|
  {
    Next(tr[i], tr[i + 1])
  }

  ghost predicate Behavior(tr: seq<State>) {
    && |tr| > 0
    && Init(tr[0])
    && forall i :: 0 <= i < |tr| - 1 ==> Moves(tr, i)
  }
}
