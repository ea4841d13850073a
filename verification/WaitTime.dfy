/** How long each reactor waits, from the earliest deadline, the clock and the backlog flag.
    Times are microseconds unless named otherwise. */
module WaitTime {
  import opened Wrappers
  import opened TimerRuns

  const INT_MAX: int := 0x7fff_ffff

  /** Milliseconds for poll; -1 waits without a timeout. */
  function PollTimeoutMs(deadline: Option<int>, now: int, backlog: bool): int {
    if backlog then 0
    else if deadline.None? then -1
    else
      var diff := deadline.value - now;
      if diff <= 0 then 0 else if diff / 1000 > INT_MAX then INT_MAX else diff / 1000
  }

  datatype Timespec = Timespec(sec: int, nsec: int)

  /** None waits without a timeout. */
  function EpollTimeout(deadline: Option<int>, now: int, backlog: bool): Option<Timespec> {
    if backlog then Some(Timespec(0, 0))
    else if deadline.None? then None
    else
      var diff := deadline.value - now;
      Some(if diff > 0 then Timespec(diff / 1_000_000, (diff % 1_000_000) * 1000) else Timespec(0, 0))
  }

  /** The fallback to epoll_wait, which takes milliseconds. */
  function EpollWaitMs(timeout: Option<Timespec>): int {
    if timeout.None? then -1
    else
      var ms := timeout.value.sec * 1000 + (timeout.value.nsec + 999_999) / 1_000_000;
      if ms > INT_MAX then INT_MAX else ms
  }

  function CvTimeoutUs(deadline: Option<int>, now: int, idleMs: nat): int {
    var idle := idleMs * 1000;
    if deadline.None? then idle
    else
      var diff := deadline.value - now;
      if diff <= 0 then 0 else if diff < idle then diff else idle
  }

  /** What remains until the deadline. */
  function Gap(deadline: int, now: int): int {
    if deadline > now then deadline - now else 0
  }

  /** m is the least number of milliseconds that covers gap. */
  predicate IsCeilingMs(gap: int, m: int) {
    m * 1000 >= gap && (m - 1) * 1000 < gap
  }

  /** The seconds and nanoseconds are the gap exactly, in range; and recombined by the
      fallback they give the gap rounded up to whole milliseconds, clamped. */
  lemma EpollWaitsForTheGap(deadline: int, now: int)
    ensures var t := EpollTimeout(Some(deadline), now, false);
            && t.Some? && 0 <= t.value.nsec < 1_000_000_000 && t.value.sec >= 0
            && t.value.sec * 1_000_000_000 + t.value.nsec == Gap(deadline, now) * 1000
    ensures var ms := EpollWaitMs(EpollTimeout(Some(deadline), now, false));
            exists m :: IsCeilingMs(Gap(deadline, now), m) && ms == if m > INT_MAX then INT_MAX else m
  {
    var gap := Gap(deadline, now);
    var sec, us := gap / 1_000_000, gap % 1_000_000;
    assert gap == sec * 1_000_000 + us;
    var m := sec * 1000 + (us * 1000 + 999_999) / 1_000_000;
    var part := (us * 1000 + 999_999) / 1_000_000;
    assert part * 1_000_000 <= us * 1000 + 999_999 < (part + 1) * 1_000_000;
    assert IsCeilingMs(gap, m);
  }

  /** A reactor waits without a timeout exactly when no timer is pending and no queue was
      left with data. */
  lemma WaitsForeverExactly(deadline: Option<int>, now: int, backlog: bool)
    ensures PollTimeoutMs(deadline, now, backlog) == -1 <==> deadline.None? && !backlog
    ensures EpollTimeout(deadline, now, backlog).None? <==> deadline.None? && !backlog
    ensures EpollWaitMs(EpollTimeout(deadline, now, backlog)) == -1 <==> deadline.None? && !backlog
    ensures PollTimeoutMs(deadline, now, backlog) >= -1
  {
    if deadline.Some? && !backlog {
      EpollWaitsForTheGap(deadline.value, now);
      var diff := deadline.value - now;
      assert diff > 0 ==> diff / 1_000_000 >= 0 && diff % 1_000_000 >= 0;
    }
  }

  /** poll rounds down: for every pending timer, not only the earliest, the wait ends no later
      than its deadline, or does not block at all; and it ends less than a millisecond before
      the earliest unless the clamp applies. */
  lemma PollNeverOversleeps(pending: seq<Entry>, now: int, backlog: bool)
    requires Sorted(pending) && pending != []
    ensures var ms := PollTimeoutMs(Some(pending[0].id.deadline), now, backlog);
            && 0 <= ms <= INT_MAX
            && (forall i :: 0 <= i < |pending| ==> ms == 0 || now + ms * 1000 <= pending[i].id.deadline)
            && (!backlog && ms < INT_MAX ==> Gap(pending[0].id.deadline, now) - ms * 1000 < 1000)
  {
    var first := pending[0].id.deadline;
    var ms := PollTimeoutMs(Some(first), now, backlog);
    var diff := first - now;
    assert diff > 0 ==> (diff / 1000) * 1000 <= diff < (diff / 1000) * 1000 + 1000;
    forall i | 0 <= i < |pending| ensures ms == 0 || now + ms * 1000 <= pending[i].id.deadline {
      assert i == 0 || Less(pending[0].id, pending[i].id);
    }
  }

  /** The cv reactor waits the smaller of the idle timeout and the gap. */
  lemma CvWaitsTheSmaller(deadline: int, now: int, idleMs: nat)
    ensures var us := CvTimeoutUs(Some(deadline), now, idleMs);
            && us <= idleMs * 1000 && us <= Gap(deadline, now)
            && (us == idleMs * 1000 || us == Gap(deadline, now))
  {
  }

  /** A queue left with data: neither poll nor epoll waits at all. */
  lemma BacklogDoesNotWait(deadline: Option<int>, now: int)
    ensures PollTimeoutMs(deadline, now, true) == 0
    ensures EpollTimeout(deadline, now, true) == Some(Timespec(0, 0))
    ensures EpollWaitMs(EpollTimeout(deadline, now, true)) == 0
  {
  }

  /** A deadline in the past does not wait either; without a timer the cv reactor waits exactly its
      idle timeout. */
  lemma PastAndIdle(deadline: int, now: int, idleMs: nat, backlog: bool)
    ensures deadline <= now ==> PollTimeoutMs(Some(deadline), now, backlog) == 0
                                && EpollWaitMs(EpollTimeout(Some(deadline), now, backlog)) == 0
                                && CvTimeoutUs(Some(deadline), now, idleMs) == 0
    ensures CvTimeoutUs(None, now, idleMs) == idleMs * 1000
  {
  }
}
