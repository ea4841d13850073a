/** reactor_queues: the registered queues of an fd reactor and one notification pass over
    them.  Queues are known by number, and `data` says how many items each holds. */
module ReactorQueues {

  type QueueId = nat
  type Cb = nat
  type Data = map<QueueId, nat>

  datatype Entry = Entry(key: QueueId, cb: Cb)

  function Size(data: Data, q: QueueId): nat {
    if q in data then data[q] else 0
  }

  ghost predicate DistinctKeys(es: seq<Entry>) {
    forall i, j :: 0 <= i < j < |es| ==> es[i].key != es[j].key
  }

  function Others(es: seq<Entry>, q: QueueId): seq<Entry> {
    if es == [] then []
    else Others(es[..|es| - 1], q) + (if es[|es| - 1].key != q then [es[|es| - 1]] else [])
  }

  lemma {:induction false} OthersKeep(es: seq<Entry>, q: QueueId)
    requires DistinctKeys(es)
    ensures DistinctKeys(Others(es, q))
    ensures forall e :: e in Others(es, q) <==> e in es && e.key != q
  {
    if es != [] {
      var n := |es| - 1;
      OthersKeep(es[..n], q);
      assert es == es[..n] + [es[n]];
      var o := Others(es[..n], q);
      forall i | 0 <= i < |o| ensures o[i].key != es[n].key {
        assert o[i] in o && o[i] in es[..n];
      }
    }
  }

  /** The first place from `from` on with key q, or the end. */
  function Find(es: seq<Entry>, q: QueueId, from: nat): (i: nat)
    requires from <= |es|
    ensures from <= i <= |es| && (i < |es| ==> es[i].key == q)
    ensures forall j :: from <= j < i ==> es[j].key != q
    decreases |es| - from
  {
    if from == |es| || es[from].key == q then from else Find(es, q, from + 1)
  }

  /** The queue's entry with the callback replaced in its place, or a new last entry. */
  function Added(es: seq<Entry>, q: QueueId, cb: Cb): seq<Entry> {
    var i := Find(es, q, 0);
    if i < |es| then es[i := Entry(q, cb)] else es + [Entry(q, cb)]
  }

  /** Adding keeps the other registrations and their order. */
  lemma AddedKeeps(es: seq<Entry>, q: QueueId, cb: Cb)
    requires DistinctKeys(es)
    ensures DistinctKeys(Added(es, q, cb))
    ensures |es| <= |Added(es, q, cb)|
    ensures forall i :: 0 <= i < |es| ==> Added(es, q, cb)[i].key == es[i].key
  {
  }

  lemma AddedMembers(es: seq<Entry>, q: QueueId, cb: Cb)
    requires DistinctKeys(es)
    ensures forall e :: e in Added(es, q, cb) <==> (e in es && e.key != q) || e == Entry(q, cb)
  {
    var i := Find(es, q, 0);
    var r := Added(es, q, cb);
    assert r[i] == Entry(q, cb);
    forall e | e in es && e.key != q ensures e in r {
      var j :| 0 <= j < |es| && es[j] == e;
      assert r[j] == e;
    }
    forall e | e in r ensures (e in es && e.key != q) || e == Entry(q, cb) {
      var j :| 0 <= j < |r| && r[j] == e;
      assert j != i ==> es[j] == e;
    }
  }

  // ---- A notification pass -------------------------------------------------------------

  /** What running a callback does to the queues: it may take any part of its own data and
      push to any queue. */
  type Effect = (Cb, Data) -> Data

  /** What a callback may do to the registrations. */
  datatype Change = Register(q: QueueId, cb: Cb) | Unregister(q: QueueId)

  function Changed(es: seq<Entry>, c: Change): seq<Entry> {
    match c
    case Register(q, cb) => Added(es, q, cb)
    case Unregister(q) => Others(es, q)
  }

  function ChangedAll(es: seq<Entry>, cs: seq<Change>): seq<Entry>
    decreases |cs|
  {
    if cs == [] then es else Changed(ChangedAll(es, cs[..|cs| - 1]), cs[|cs| - 1])
  }

  function Visit(e: Entry, data: Data, effect: Effect): Data {
    if Size(data, e.key) > 0 then effect(e.cb, data) else data
  }

  /** The queues after the first n entries have been visited. */
  function DataAfter(es: seq<Entry>, data: Data, effect: Effect, n: nat): Data
    requires n <= |es|
  {
    if n == 0 then data else Visit(es[n - 1], DataAfter(es, data, effect, n - 1), effect)
  }

  /** The registrations after the first n entries of the snapshot `es` have been visited, when
      callback i makes the changes behave(i). */
  function EntriesAfter(es: seq<Entry>, data: Data, effect: Effect, behave: nat -> seq<Change>, n: nat): seq<Entry>
    requires n <= |es|
  {
    if n == 0 then es
    else
      var before := EntriesAfter(es, data, effect, behave, n - 1);
      if Size(DataAfter(es, data, effect, n - 1), es[n - 1].key) > 0 then ChangedAll(before, behave(n - 1)) else before
  }

  /** Some of the first n entries still had data right after its own turn. */
  ghost predicate Backlog(es: seq<Entry>, data: Data, effect: Effect, n: nat)
    requires n <= |es|
  {
    exists i :: 0 <= i < n && LeftBehind(es, data, effect, i)
  }

  predicate LeftBehind(es: seq<Entry>, data: Data, effect: Effect, i: nat)
    requires i < |es|
  {
    Size(DataAfter(es, data, effect, i + 1), es[i].key) > 0
  }

  /** Every visit, in the order of registration: a queue with data gets its own callback run, once,
      on what the visits before it left; one without data changes nothing. */
  lemma VisitsInOrder(es: seq<Entry>, data: Data, effect: Effect, behave: nat -> seq<Change>, i: nat)
    requires i < |es|
    ensures DataAfter(es, data, effect, 0) == data && EntriesAfter(es, data, effect, behave, 0) == es
    ensures var before := DataAfter(es, data, effect, i);
            var after := DataAfter(es, data, effect, i + 1);
            && after == (if es[i].key in before && before[es[i].key] > 0 then effect(es[i].cb, before) else before)
            && EntriesAfter(es, data, effect, behave, i + 1)
               == (if es[i].key in before && before[es[i].key] > 0
                   then ChangedAll(EntriesAfter(es, data, effect, behave, i), behave(i))
                   else EntriesAfter(es, data, effect, behave, i))
            && (LeftBehind(es, data, effect, i) <==> es[i].key in after && after[es[i].key] > 0)
  {
  }

  /** What a callback that changes the registrations leaves, change by change. */
  lemma ChangesInOrder(es: seq<Entry>, cs: seq<Change>, i: nat)
    requires i < |cs|
    ensures ChangedAll(es, cs[..0]) == es
    ensures ChangedAll(es, cs[..i + 1]) == match cs[i]
                                           case Register(q, cb) => Added(ChangedAll(es, cs[..i]), q, cb)
                                           case Unregister(q) => Others(ChangedAll(es, cs[..i]), q)
  {
    assert cs[..i + 1][..i] == cs[..i];
  }

  /** The pass has visited the first n entries of the snapshot. */
  ghost predicate Visited(es: seq<Entry>, data: Data, effect: Effect, behave: nat -> seq<Change>, n: nat,
                          now: seq<Entry>, after: Data, backlog: bool)
    requires n <= |es|
  {
    && now == EntriesAfter(es, data, effect, behave, n) && after == DataAfter(es, data, effect, n)
    && (backlog <==> Backlog(es, data, effect, n))
  }

  /** A queue without data is passed over. */
  lemma PassOver(es: seq<Entry>, data: Data, effect: Effect, behave: nat -> seq<Change>, n: nat,
                 now: seq<Entry>, after: Data, backlog: bool)
    requires n < |es| && Visited(es, data, effect, behave, n, now, after, backlog) && Size(after, es[n].key) == 0
    ensures Visited(es, data, effect, behave, n + 1, now, after, backlog)
  {
    assert !LeftBehind(es, data, effect, n);
  }

  /** A queue with data gets its turn. */
  lemma TakeTurn(es: seq<Entry>, data: Data, effect: Effect, behave: nat -> seq<Change>, n: nat,
                 now: seq<Entry>, after: Data, backlog: bool)
    requires n < |es| && Visited(es, data, effect, behave, n, now, after, backlog) && Size(after, es[n].key) > 0
    ensures var after' := effect(es[n].cb, after);
            Visited(es, data, effect, behave, n + 1, ChangedAll(now, behave(n)), after',
                    backlog || Size(after', es[n].key) > 0)
  {
    assert LeftBehind(es, data, effect, n) <==> Size(effect(es[n].cb, after), es[n].key) > 0;
  }

  class ReactorQueues {
    var entries: seq<Entry>

    ghost predicate Valid()
      reads this
    {
      DistinctKeys(entries)
    }

    constructor ()
      ensures Valid() && entries == []
    {
      entries := [];
    }

    /** Registers a queue, or gives a registered one a new callback in its old place. */
    method Add(q: QueueId, cb: Cb)
      requires Valid()
      modifies this
      ensures Valid() && entries == Added(old(entries), q, cb)
      ensures forall e :: e in entries <==> (e in old(entries) && e.key != q) || e == Entry(q, cb)
      ensures forall i :: 0 <= i < |old(entries)| ==> i < |entries| && entries[i].key == old(entries)[i].key
    {
      AddedKeeps(entries, q, cb);
      AddedMembers(entries, q, cb);
      for i := 0 to |entries|
        invariant entries == old(entries)
        invariant forall j :: 0 <= j < i ==> entries[j].key != q
      {
        if entries[i].key == q {
          assert i == Find(entries, q, 0);
          entries := entries[i := Entry(q, cb)];
          return;
        }
      }
      assert |entries| == Find(entries, q, 0);
      entries := entries + [Entry(q, cb)];
    }

    /** Unregisters a queue; the others keep their order. */
    method Rem(q: QueueId)
      requires Valid()
      modifies this
      ensures Valid() && entries == Others(old(entries), q)
      ensures forall e :: e in entries <==> e in old(entries) && e.key != q
    {
      var kept: seq<Entry> := [];
      for i := 0 to |entries|
        invariant entries == old(entries) && kept == Others(entries[..i], q)
      {
        assert entries[..i + 1][..i] == entries[..i];
        if entries[i].key != q {
          kept := kept + [entries[i]];
        }
      }
      assert entries[..|entries|] == entries;
      OthersKeep(entries, q);
      entries := kept;
    }

    /** What a callback does to the registrations. */
    method PerformAll(cs: seq<Change>)
      requires Valid()
      modifies this
      ensures Valid() && entries == ChangedAll(old(entries), cs)
    {
      for i := 0 to |cs|
        invariant Valid() && entries == ChangedAll(old(entries), cs[..i])
      {
        assert cs[..i + 1][..i] == cs[..i];
        match cs[i]
        case Register(q, cb) => Add(q, cb);
        case Unregister(q) => Rem(q);
      }
      assert cs[..|cs|] == cs;
    }

    /** Runs the callback of every queue that was registered when the pass began and has data
        when its turn comes, whatever the callbacks register and unregister meanwhile.  The
        result says whether some queue still had data right after its own turn; if not, each
        queue was empty then, so that data found in it later was pushed later. */
    method Notify(data: Data, effect: Effect, behave: nat -> seq<Change>) returns (backlog: bool, after: Data)
      requires Valid()
      modifies this
      ensures Valid() && entries == EntriesAfter(old(entries), data, effect, behave, |old(entries)|)
      ensures after == DataAfter(old(entries), data, effect, |old(entries)|)
      ensures backlog <==> Backlog(old(entries), data, effect, |old(entries)|)
    {
      after := data;
      if entries == [] {
        return false, after;
      }
      var snapshot := entries;
      backlog := false;
      for i := 0 to |snapshot|
        invariant Valid() && Visited(snapshot, data, effect, behave, i, entries, after, backlog)
      {
        var e := snapshot[i];
        if Size(after, e.key) > 0 {
          TakeTurn(snapshot, data, effect, behave, i, entries, after, backlog);
          after := effect(e.cb, after);
          PerformAll(behave(i));
          backlog := backlog || Size(after, e.key) > 0;
        } else {
          PassOver(snapshot, data, effect, behave, i, entries, after, backlog);
        }
      }
    }
  }
}
