/** The list of posted wake-up callbacks, common to the three reactors: append under a
    mutex, take everything at once, run the batch in order. */
module Callbacks {
  type Tid = nat
  type RemovalId = nat

  /** The thread that executes `run`. */
  const REACTOR: Tid := 0

  /** Callbacks are opaque, except the one a deferred removal posts for itself. */
  datatype Callback = User(id: nat) | RunRemovals(removal: RemovalId)

  /** m_wake_up_cb, the batch taken from it and not yet started, and the history of
      appends and starts. */
  datatype Mail = Mail(callbacks: seq<Callback>, batch: seq<Callback>, posted: seq<Callback>, ran: seq<Callback>)

  function Append(m: Mail, cb: Callback): Mail {
    m.(callbacks := m.callbacks + [cb], posted := m.posted + [cb])
  }

  function TakeBatch(m: Mail): Mail {
    m.(batch := m.callbacks, callbacks := [])
  }

  function StartNext(m: Mail): Mail
    requires m.batch != []
  {
    m.(batch := m.batch[1..], ran := m.ran + [m.batch[0]])
  }

  /** No callback is lost, duplicated or reordered. */
  ghost predicate MailInv(m: Mail) {
    m.posted == m.ran + m.batch + m.callbacks
  }

  lemma MailOperations(m: Mail, cb: Callback)
    requires MailInv(m)
    ensures MailInv(Append(m, cb))
    ensures m.batch == [] ==> MailInv(TakeBatch(m))
    ensures m.batch != [] ==> MailInv(StartNext(m))
  {
    if m.batch != [] {
      assert m.batch == [m.batch[0]] + m.batch[1..];
    }
  }

  /** m' is a later state of m: the log has grown, and so has what was run or taken. */
  ghost predicate Follows(m: Mail, m': Mail) {
    m.posted <= m'.posted && m.ran <= m'.ran && |m.ran| + |m.batch| <= |m'.ran| + |m'.batch|
  }

  lemma FollowsTransitive(a: Mail, b: Mail, c: Mail)
    requires Follows(a, b) && Follows(b, c)
    ensures Follows(a, c)
  {
  }

  /** As long as nothing more is taken, only what had been posted is run. */
  lemma OnlyTakenIsRun(m: Mail, m': Mail)
    requires MailInv(m) && MailInv(m') && Follows(m, m')
    ensures m'.ran <= m'.posted
    ensures |m.ran| + |m.batch| == |m'.ran| + |m'.batch| ==> m'.ran <= m.posted
  {
    if |m.ran| + |m.batch| == |m'.ran| + |m'.batch| {
      assert forall k :: 0 <= k < |m'.ran| ==> m'.ran[k] == m'.posted[k] == m.posted[k];
    }
  }
}
