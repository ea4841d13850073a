/** The timer as a step machine.  Any thread adds and cancels timers; one thread at a time is
    in `schedule`, which takes the due timers out under the lock and then runs their
    callbacks without it, so that additions and cancellations, by callbacks or by other
    threads, fall between any two firings. */
module TimerRuns {

  type Cb = nat

  datatype TimerId = TimerId(deadline: int, ctr: nat)

  datatype Entry = Entry(id: TimerId, cb: Cb)

  /** One callback run: in which schedule call, and that call's clock value and the next
      timer number when it took the due timers out. */
  datatype Firing = Firing(entry: Entry, round: nat, now: int, mark: nat)

  /** `pending` is the ordered map, in key order.  `round`, `now` and `mark` describe the
      latest schedule call and `extracted` what it has still to run; the rest is history. */
  datatype Timers = Timers(pending: seq<Entry>, ctr: nat,
                           extracted: seq<Entry>, round: nat, now: int, mark: nat,
                           issued: seq<TimerId>, fired: seq<Firing>, cancelled: set<TimerId>)

  const EMPTY: Timers := Timers([], 0, [], 0, 0, 0, [], [], {})

  /** The key order: by deadline, then by creation. */
  predicate Less(a: TimerId, b: TimerId) {
    a.deadline < b.deadline || (a.deadline == b.deadline && a.ctr < b.ctr)
  }

  function Insert(es: seq<Entry>, e: Entry): seq<Entry> {
    if es == [] then [e]
    else if Less(e.id, es[0].id) then [e] + es
    else [es[0]] + Insert(es[1..], e)
  }

  function Without(es: seq<Entry>, id: TimerId): seq<Entry> {
    if es == [] then []
    else if es[0].id == id then Without(es[1..], id)
    else [es[0]] + Without(es[1..], id)
  }

  /** How many entries at the front are due. */
  function Due(es: seq<Entry>, now: int): (n: nat)
    ensures n <= |es|
  {
    if es == [] || now < es[0].id.deadline then 0 else 1 + Due(es[1..], now)
  }

  ghost predicate Has(es: seq<Entry>, id: TimerId) {
    exists i :: 0 <= i < |es| && es[i].id == id
  }

  datatype Step =
    | Wait(forUs: int, nowUs: int, cb: Cb)
    | Cancel(id: TimerId)
    | Extract(nowUs: int)
    | Fire

  predicate Enabled(t: Timers, step: Step) {
    match step
    case Extract(_) => t.extracted == []
    case Fire => t.extracted != []
    case _ => true
  }

  function NewId(t: Timers, forUs: int, nowUs: int): TimerId {
    TimerId(nowUs + forUs, t.ctr)
  }

  ghost function Apply(t: Timers, step: Step): Timers
    requires Enabled(t, step)
  {
    match step
    case Wait(forUs, nowUs, cb) =>
      var id := NewId(t, forUs, nowUs);
      t.(pending := Insert(t.pending, Entry(id, cb)), ctr := t.ctr + 1, issued := t.issued + [id])
    case Cancel(id) =>
      if Has(t.pending, id) then t.(pending := Without(t.pending, id), cancelled := t.cancelled + {id}) else t
    case Extract(nowUs) =>
      var n := Due(t.pending, nowUs);
      t.(pending := t.pending[n..], extracted := t.pending[..n], round := t.round + 1, now := nowUs, mark := t.ctr)
    case Fire =>
      t.(extracted := t.extracted[1..], fired := t.fired + [Firing(t.extracted[0], t.round, t.now, t.mark)])
  }

  ghost predicate Next(t: Timers, t': Timers) {
    exists step :: Enabled(t, step) && t' == Apply(t, step)
  }

  ghost predicate Moves(tr: seq<Timers>, i: nat)
    requires i + 1 < |tr|
  {
    Next(tr[i], tr[i + 1])
  }

  ghost predicate Behavior(tr: seq<Timers>) {
    && |tr| > 0
    && tr[0] == EMPTY
    && forall i :: 0 <= i < |tr| - 1 ==> Moves(tr, i)
  }

  // ---- Sequences in key order ----------------------------------------------------------

  ghost predicate Sorted(es: seq<Entry>) {
    forall i, j :: 0 <= i < j < |es| ==> Less(es[i].id, es[j].id)
  }

  lemma {:induction false} InsertSorts(es: seq<Entry>, e: Entry)
    requires Sorted(es) && !Has(es, e.id)
    ensures Sorted(Insert(es, e)) && |Insert(es, e)| == |es| + 1
    ensures forall x :: x in Insert(es, e) <==> x == e || x in es
  {
    if es != [] && !Less(e.id, es[0].id) {
      assert es == [es[0]] + es[1..];
      assert es[0].id != e.id;
      assert forall i :: 0 <= i < |es[1..]| ==> es[1..][i] == es[i + 1];
      InsertSorts(es[1..], e);
      var r := Insert(es[1..], e);
      forall j | 0 <= j < |r| ensures Less(es[0].id, r[j].id) {
        assert r[j] in r;
      }
    }
  }

  lemma {:induction false} WithoutSorts(es: seq<Entry>, id: TimerId)
    requires Sorted(es)
    ensures Sorted(Without(es, id))
    ensures forall x :: x in Without(es, id) <==> x in es && x.id != id
  {
    if es != [] {
      assert es == [es[0]] + es[1..];
      WithoutSorts(es[1..], id);
      var r := Without(es[1..], id);
      forall j | 0 <= j < |r| ensures Less(es[0].id, r[j].id) {
        assert r[j] in r && r[j] in es[1..];
      }
    }
  }

  /** In a sorted map the leading due entries are all the due ones. */
  lemma {:induction false} DueExact(es: seq<Entry>, now: int)
    requires Sorted(es)
    ensures forall i :: 0 <= i < |es| ==> (es[i].id.deadline <= now <==> i < Due(es, now))
  {
    if es != [] && es[0].id.deadline <= now {
      DueExact(es[1..], now);
      forall i | 0 < i < |es| ensures es[i].id.deadline <= now <==> i < Due(es, now) {
        assert es[i] == es[1..][i - 1];
      }
    }
  }

  // ---- Invariant -----------------------------------------------------------------------

  ghost predicate HasFired(t: Timers, id: TimerId) {
    exists i :: 0 <= i < |t.fired| && t.fired[i].entry.id == id
  }

  ghost predicate Issued(t: Timers, id: TimerId) {
    id.ctr < |t.issued| && t.issued[id.ctr] == id
  }

  function One(b: bool): nat {
    if b then 1 else 0
  }

  /** Pending, extracted, fired or cancelled. */
  ghost function Places(t: Timers, id: TimerId): nat {
    One(Has(t.pending, id)) + One(Has(t.extracted, id)) + One(HasFired(t, id)) + One(id in t.cancelled)
  }

  ghost predicate PlacesInv(t: Timers) {
    && |t.issued| == t.ctr
    && (forall c :: 0 <= c < |t.issued| ==> t.issued[c].ctr == c)
    && Sorted(t.pending) && Sorted(t.extracted)
    && (forall id :: Places(t, id) == One(Issued(t, id)))
    && (forall i, j :: 0 <= i < j < |t.fired| ==> t.fired[i].entry.id != t.fired[j].entry.id)
  }

  /** Nothing fires early, in the call that runs while it is added, or out of order. */
  ghost predicate OrderInv(t: Timers) {
    && t.mark <= t.ctr
    && (forall i :: 0 <= i < |t.extracted| ==>
          t.extracted[i].id.deadline <= t.now && t.extracted[i].id.ctr < t.mark)
    && (forall i :: 0 <= i < |t.fired| ==>
          var f := t.fired[i];
          f.entry.id.deadline <= f.now && f.entry.id.ctr < f.mark && f.round <= t.round)
    && (forall i, j :: 0 <= i < j < |t.fired| && t.fired[i].round == t.fired[j].round
          ==> Less(t.fired[i].entry.id, t.fired[j].entry.id))
    && (forall i, j :: 0 <= i < |t.fired| && t.fired[i].round == t.round && 0 <= j < |t.extracted|
          ==> Less(t.fired[i].entry.id, t.extracted[j].id))
  }

  lemma HasMember(es: seq<Entry>, id: TimerId)
    ensures Has(es, id) <==> exists e :: e in es && e.id == id
  {
    if Has(es, id) {
      var i :| 0 <= i < |es| && es[i].id == id;
      assert es[i] in es;
    }
  }

  lemma WaitPlaces(t: Timers, forUs: int, nowUs: int, cb: Cb)
    requires PlacesInv(t)
    ensures PlacesInv(Apply(t, Wait(forUs, nowUs, cb)))
  {
    var id := NewId(t, forUs, nowUs);
    var e := Entry(id, cb);
    var t' := Apply(t, Wait(forUs, nowUs, cb));
    assert Places(t, id) == 0;
    InsertSorts(t.pending, e);
    forall x ensures Places(t', x) == One(Issued(t', x)) {
      assert Places(t, x) == One(Issued(t, x));
      HasMember(t.pending, x);
      HasMember(t'.pending, x);
      assert e in t'.pending;
    }
  }

  lemma CancelPlaces(t: Timers, id: TimerId)
    requires PlacesInv(t)
    ensures PlacesInv(Apply(t, Cancel(id)))
  {
    if Has(t.pending, id) {
      var t' := Apply(t, Cancel(id));
      WithoutSorts(t.pending, id);
      forall x ensures Places(t', x) == One(Issued(t', x)) {
        assert Places(t, x) == One(Issued(t, x));
        HasMember(t.pending, x);
        HasMember(t'.pending, x);
      }
    }
  }

  lemma SplitHas(es: seq<Entry>, n: nat, id: TimerId)
    requires n <= |es| && Sorted(es)
    ensures One(Has(es, id)) == One(Has(es[..n], id)) + One(Has(es[n..], id))
  {
    HasMember(es, id);
    HasMember(es[..n], id);
    HasMember(es[n..], id);
    assert es == es[..n] + es[n..];
  }

  lemma ExtractPlaces(t: Timers, nowUs: int)
    requires PlacesInv(t) && t.extracted == []
    ensures PlacesInv(Apply(t, Extract(nowUs)))
  {
    var t' := Apply(t, Extract(nowUs));
    forall x ensures Places(t', x) == One(Issued(t', x)) {
      assert Places(t, x) == One(Issued(t, x));
      SplitHas(t.pending, Due(t.pending, nowUs), x);
    }
  }

  lemma FirePlaces(t: Timers)
    requires PlacesInv(t) && t.extracted != []
    ensures PlacesInv(Apply(t, Fire))
  {
    var t' := Apply(t, Fire);
    var id := t.extracted[0].id;
    forall x ensures Places(t', x) == One(Issued(t', x)) && (HasFired(t', x) <==> HasFired(t, x) || x == id) {
      assert Places(t, x) == One(Issued(t, x));
      SplitHas(t.extracted, 1, x);
      assert t'.fired[|t.fired|].entry.id == id;
      if HasFired(t, x) {
        var i :| 0 <= i < |t.fired| && t.fired[i].entry.id == x;
        assert t'.fired[i].entry.id == x;
      }
    }
    assert Places(t, id) == One(Issued(t, id));
    assert Has(t.extracted, id);
  }

  lemma PlacesKept(t: Timers, step: Step)
    requires PlacesInv(t) && Enabled(t, step)
    ensures PlacesInv(Apply(t, step))
  {
    match step
    case Wait(forUs, nowUs, cb) => WaitPlaces(t, forUs, nowUs, cb);
    case Cancel(id) => CancelPlaces(t, id);
    case Extract(nowUs) => ExtractPlaces(t, nowUs);
    case Fire => FirePlaces(t);
  }

  lemma OrderKept(t: Timers, step: Step)
    requires PlacesInv(t) && OrderInv(t) && Enabled(t, step)
    ensures OrderInv(Apply(t, step))
  {
    if step.Extract? {
      DueExact(t.pending, step.nowUs);
      forall i | 0 <= i < |t.pending| ensures t.pending[i].id.ctr < t.ctr {
        assert Has(t.pending, t.pending[i].id);
        assert Places(t, t.pending[i].id) == One(Issued(t, t.pending[i].id));
      }
    }
  }

  // ---- Theorems ------------------------------------------------------------------------

  lemma {:induction false} Reachable(tr: seq<Timers>, i: nat)
    requires Behavior(tr) && i < |tr|
    ensures PlacesInv(tr[i]) && OrderInv(tr[i])
  {
    if i > 0 {
      Reachable(tr, i - 1);
      assert Moves(tr, i - 1);
      var step :| Enabled(tr[i - 1], step) && tr[i] == Apply(tr[i - 1], step);
      PlacesKept(tr[i - 1], step);
      OrderKept(tr[i - 1], step);
    }
  }

  /** In every interleaving each issued timer is in exactly one of pending, extracted, fired
      and cancelled, nothing else is in any of them, and nothing fires twice. */
  lemma ExactlyOnePlace(tr: seq<Timers>, i: nat, id: TimerId)
    requires Behavior(tr) && i < |tr|
    ensures Places(tr[i], id) == if Issued(tr[i], id) then 1 else 0
    ensures forall a, b :: 0 <= a < b < |tr[i].fired| ==> tr[i].fired[a].entry.id != tr[i].fired[b].entry.id
  {
    Reachable(tr, i);
  }

  /** Whatever callbacks and other threads add or cancel meanwhile: no timer fires before its
      deadline, none fires in a schedule call that began before it was added, and within one
      call timers fire by deadline, then by creation. */
  lemma FiresInOrderNeverEarly(tr: seq<Timers>, i: nat)
    requires Behavior(tr) && i < |tr|
    ensures forall a :: 0 <= a < |tr[i].fired| ==>
              var f := tr[i].fired[a]; f.entry.id.deadline <= f.now && f.entry.id.ctr < f.mark
    ensures forall a, b :: 0 <= a < b < |tr[i].fired| && tr[i].fired[a].round == tr[i].fired[b].round
              ==> Less(tr[i].fired[a].entry.id, tr[i].fired[b].entry.id)
  {
    Reachable(tr, i);
  }

  /** What schedule takes out is exactly what is due. */
  lemma ExtractsExactlyDue(tr: seq<Timers>, i: nat, nowUs: int)
    requires Behavior(tr) && i < |tr| && tr[i].extracted == []
    ensures var t' := Apply(tr[i], Extract(nowUs));
            && tr[i].pending == t'.extracted + t'.pending
            && (forall e :: e in t'.extracted ==> e.id.deadline <= nowUs)
            && (forall e :: e in t'.pending ==> e.id.deadline > nowUs)
            && Sorted(t'.extracted)
  {
    Reachable(tr, i);
    DueExact(tr[i].pending, nowUs);
  }

  /** A timer whose cancel found it pending never fires, and cancel finds only such timers. */
  lemma {:induction false} CancelledNeverFires(tr: seq<Timers>, i: nat, j: nat, id: TimerId)
    requires Behavior(tr) && i < j < |tr| && Has(tr[i].pending, id) && tr[i + 1] == Apply(tr[i], Cancel(id))
    ensures id in tr[j].cancelled && !HasFired(tr[j], id)
    decreases j
  {
    if i + 1 < j {
      CancelledNeverFires(tr, i, j - 1, id);
      assert Moves(tr, j - 1);
    }
    Reachable(tr, j);
    assert Places(tr[j], id) == One(Issued(tr[j], id));
  }

  // ---- What was asked for --------------------------------------------------------------

  /** Wherever the timer id is, it is there with the callback cb. */
  ghost predicate RunsCallback(t: Timers, id: TimerId, cb: Cb) {
    && (forall e :: e in t.pending && e.id == id ==> e.cb == cb)
    && (forall e :: e in t.extracted && e.id == id ==> e.cb == cb)
    && (forall i :: 0 <= i < |t.fired| && t.fired[i].entry.id == id ==> t.fired[i].entry.cb == cb)
  }

  /** A timer waits for the time and with the callback it was given. */
  lemma WaitIsAsked(t: Timers, forUs: int, nowUs: int, cb: Cb)
    requires PlacesInv(t)
    ensures var id := TimerId(nowUs + forUs, t.ctr);
            var t' := Apply(t, Wait(forUs, nowUs, cb));
            && Issued(t', id) && RunsCallback(t', id, cb)
            && forall e :: e in t'.pending <==> e in t.pending || e == Entry(id, cb)
  {
    var id := TimerId(nowUs + forUs, t.ctr);
    assert Places(t, id) == One(Issued(t, id)) == 0;
    InsertSorts(t.pending, Entry(id, cb));
    HasMember(t.pending, id);
    HasMember(t.extracted, id);
  }

  lemma AskedKept(t: Timers, step: Step, id: TimerId, cb: Cb)
    requires PlacesInv(t) && Enabled(t, step) && Issued(t, id) && RunsCallback(t, id, cb)
    ensures Issued(Apply(t, step), id) && RunsCallback(Apply(t, step), id, cb)
  {
    match step
    case Wait(forUs, nowUs, cb') => WaitIsAsked(t, forUs, nowUs, cb');
    case Cancel(other) => WithoutSorts(t.pending, other);
    case Extract(nowUs) =>
    case Fire => assert t.extracted[0] in t.extracted;
  }

  lemma {:induction false} AskedForever(tr: seq<Timers>, i: nat, j: nat, forUs: int, nowUs: int, cb: Cb)
    requires Behavior(tr) && i < j < |tr| && tr[i + 1] == Apply(tr[i], Wait(forUs, nowUs, cb))
    ensures Issued(tr[j], TimerId(nowUs + forUs, tr[i].ctr))
    ensures RunsCallback(tr[j], TimerId(nowUs + forUs, tr[i].ctr), cb)
    decreases j
  {
    if j == i + 1 {
      Reachable(tr, i);
      WaitIsAsked(tr[i], forUs, nowUs, cb);
    } else {
      AskedForever(tr, i, j - 1, forUs, nowUs, cb);
      Reachable(tr, j - 1);
      assert Moves(tr, j - 1);
      var step :| Enabled(tr[j - 1], step) && tr[j] == Apply(tr[j - 1], step);
      AskedKept(tr[j - 1], step, TimerId(nowUs + forUs, tr[i].ctr), cb);
    }
  }

  /** In every behavior, the timer made by a wait of forUs at nowUs with cb runs cb, and only once
      the clock of its schedule call has reached nowUs + forUs. */
  lemma FiresAsAsked(tr: seq<Timers>, i: nat, j: nat, forUs: int, nowUs: int, cb: Cb, a: nat)
    requires Behavior(tr) && i < j < |tr| && tr[i + 1] == Apply(tr[i], Wait(forUs, nowUs, cb))
    requires a < |tr[j].fired| && tr[j].fired[a].entry.id.ctr == tr[i].ctr
    ensures tr[j].fired[a].now >= nowUs + forUs && tr[j].fired[a].entry.cb == cb
  {
    AskedForever(tr, i, j, forUs, nowUs, cb);
    Reachable(tr, j);
    var id := tr[j].fired[a].entry.id;
    assert HasFired(tr[j], id);
    assert Places(tr[j], id) == One(Issued(tr[j], id));
  }
}
