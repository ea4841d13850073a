/** The one specification behind the three reactor doorbells.

    Callbacks are appended to a log.  The consumer takes everything appended so
    far as one batch, runs the batch in order, and takes the next batch only when
    the previous one is finished.  A caller that has work for the consumer owes a
    ring until it has rung; a ring stays live until the consumer absorbs it, which
    it does only while awake.  The consumer may fall asleep only when nothing is
    untaken, or a ring is live, or a ring is still owed. */
module Mailbox {

  datatype Box<T> = Box(log: seq<T>, taken: nat, ran: nat, asleep: bool, ring: bool, owed: set<nat>)

  datatype Act<T> =
    | Post(t: nat, x: T)
    | Nudge(t: nat)
    | Ring(t: nat)
    | Sleep
    | Wake
    | Absorb
    | Take
    | RunNext
    | Stutter

  ghost predicate Init<T>(m: Box<T>) {
    m == Box([], 0, 0, false, false, {})
  }

  /** Sleeping is harmless: nothing is untaken, or the sleep will be interrupted. */
  ghost predicate SafeToSleep<T>(m: Box<T>) {
    m.taken == |m.log| || m.ring || m.owed != {}
  }

  ghost predicate Step<T>(m: Box<T>, a: Act<T>, m': Box<T>) {
    match a
    case Post(t, x) => m' == m.(log := m.log + [x], owed := m.owed + {t})
    case Nudge(t) => m' == m.(owed := m.owed + {t})
    case Ring(t) => t in m.owed && m' == m.(ring := true, owed := m.owed - {t})
    case Sleep => !m.asleep && m.ran == m.taken && SafeToSleep(m) && m' == m.(asleep := true)
    case Wake => m.asleep && m' == m.(asleep := false)
    case Absorb => !m.asleep && m' == m.(ring := false)
    case Take => !m.asleep && m.ran == m.taken && m' == m.(taken := |m.log|)
    case RunNext => !m.asleep && m.ran < m.taken && m' == m.(ran := m.ran + 1)
    case Stutter => m' == m
  }

  ghost predicate Next<T(!new)>(m: Box<T>, m': Box<T>) {
    exists a :: Step(m, a, m')
  }

  ghost predicate Moves<T(!new)>(tr: seq<Box<T>>, i: nat)
    requires i + 1 < |tr|
  {
    Next(tr[i], tr[i + 1])
  }

  ghost predicate Behavior<T(!new)>(tr: seq<Box<T>>) {
    && |tr| > 0
    && Init(tr[0])
    && forall i :: 0 <= i < |tr| - 1 ==> Moves(tr, i)
  }

  ghost predicate Inv<T>(m: Box<T>) {
    && m.ran <= m.taken <= |m.log|
    && (m.asleep ==> m.ran == m.taken && SafeToSleep(m))
  }

  /** What has been delivered: a prefix of the append log. */
  ghost function Delivered<T>(m: Box<T>): seq<T>
    requires Inv(m)
  {
    m.log[..m.ran]
  }

  lemma {:induction false} Reachable<T(!new)>(tr: seq<Box<T>>, i: nat)
    requires Behavior(tr) && i < |tr|
    ensures Inv(tr[i])
  {
    if i > 0 {
      Reachable(tr, i - 1);
      assert Moves(tr, i - 1);
    }
  }

  /** Along every behavior the log only grows, deliveries happen in append order and
      never twice, and a callback appended after state `i` is not delivered before a
      later take: as long as no batch is taken, only what was in the log at `i` runs. */
  lemma {:induction false} InOrderAtMostOnce<T(!new)>(tr: seq<Box<T>>, i: nat, j: nat)
    requires Behavior(tr) && i <= j < |tr|
    ensures Inv(tr[i]) && Inv(tr[j])
    ensures tr[i].log <= tr[j].log
    ensures Delivered(tr[i]) <= Delivered(tr[j]) <= tr[j].log
    ensures tr[i].taken <= tr[j].taken
    ensures tr[j].taken == tr[i].taken ==> Delivered(tr[j]) <= tr[i].log
  {
    Reachable(tr, i);
    Reachable(tr, j);
    if i < j {
      InOrderAtMostOnce(tr, i, j - 1);
      assert Moves(tr, j - 1);
    }
  }

  /** In every state of every behavior: asleep only with nothing untaken, a live
      ring, or a ring still owed. */
  lemma SleepsOnlyWhenSafe<T(!new)>(tr: seq<Box<T>>, i: nat)
    requires Behavior(tr) && i < |tr| && tr[i].asleep
    ensures SafeToSleep(tr[i]) && tr[i].ran == tr[i].taken
  {
    Reachable(tr, i);
  }
}
