/** What a lossy queue is, without the ring: a bounded sequence that loses its oldest
    element when it is full.  Every element that leaves does so from the front, so the
    whole history is one sequence: what is gone, in order, then what is held. */
module RingRuns {
  datatype Fate = Popped | Lost

  datatype Gone<T> = Gone(value: T, fate: Fate)

  /** `pushed` and `gone` are history; `signals` counts the wake-ups issued. */
  datatype Ring<T> = Ring(capacity: nat, items: seq<T>, pushed: seq<T>, gone: seq<Gone<T>>, signals: nat)

  datatype Op<T> = Push(x: T) | Pop | SetCapacity(n: nat)

  function AllLost<T>(xs: seq<T>): (r: seq<Gone<T>>)
    ensures |r| == |xs|
    ensures forall i :: 0 <= i < |xs| ==> r[i] == Gone(xs[i], Lost)
  {
    seq(|xs|, i requires 0 <= i < |xs| => Gone(xs[i], Lost))
  }

  /** Append, and drop the first if that is one too many. */
  function Pushed<T>(r: Ring<T>, x: T): Ring<T> {
    if r.capacity == 0 then r.(pushed := r.pushed + [x], gone := r.gone + [Gone(x, Lost)])
    else
      var drop := if |r.items| >= r.capacity && r.items != [] then 1 else 0;
      r.(items := r.items[drop..] + [x], pushed := r.pushed + [x],
         gone := r.gone + AllLost(r.items[..drop]), signals := r.signals + 1)
  }

  function Taken<T>(r: Ring<T>): Ring<T> {
    if r.items == [] then r
    else r.(items := r.items[1..], gone := r.gone + [Gone(r.items[0], Popped)])
  }

  /** Keeps the newest. */
  function Resized<T>(r: Ring<T>, n: nat): Ring<T> {
    var drop := if |r.items| > n then |r.items| - n else 0;
    r.(capacity := n, items := r.items[drop..], gone := r.gone + AllLost(r.items[..drop]))
  }

  function Apply<T>(r: Ring<T>, op: Op<T>): Ring<T> {
    match op
    case Push(x) => Pushed(r, x)
    case Pop => Taken(r)
    case SetCapacity(n) => Resized(r, n)
  }

  function Play<T>(r: Ring<T>, ops: seq<Op<T>>): Ring<T>
    decreases |ops|
  {
    if ops == [] then r else Apply(Play(r, ops[..|ops| - 1]), ops[|ops| - 1])
  }

  function Empty<T>(): Ring<T> {
    Ring(0, [], [], [], 0)
  }

  function Values<T>(gone: seq<Gone<T>>): (vs: seq<T>)
    ensures |vs| == |gone|
    ensures forall i :: 0 <= i < |gone| ==> vs[i] == gone[i].value
  {
    seq(|gone|, i requires 0 <= i < |gone| => gone[i].value)
  }

  /** Every pushed element is exactly one of popped, lost or held, and they are in push
      order: first the gone ones, then the held ones. */
  ghost predicate Conserved<T>(r: Ring<T>) {
    |r.items| <= r.capacity && Values(r.gone) + r.items == r.pushed
  }

  /** n elements leave from the front and the rest moves up. */
  lemma FrontLeaves<T>(r: Ring<T>, n: nat, left: seq<Gone<T>>, added: seq<T>)
    requires Values(r.gone) + r.items == r.pushed && n <= |r.items| && Values(left) == r.items[..n]
    ensures Values(r.gone + left) + (r.items[n..] + added) == r.pushed + added
  {
    assert Values(r.gone + left) == Values(r.gone) + Values(left);
    assert r.items == r.items[..n] + r.items[n..];
  }

  lemma LostValues<T>(xs: seq<T>)
    ensures Values(AllLost(xs)) == xs
  {
  }

  lemma PushConserves<T>(r: Ring<T>, x: T)
    requires Conserved(r)
    ensures Conserved(Pushed(r, x))
  {
    if r.capacity == 0 {
      assert Values(r.gone + [Gone(x, Lost)]) == Values(r.gone) + [x];
    } else {
      var drop := if |r.items| >= r.capacity && r.items != [] then 1 else 0;
      LostValues(r.items[..drop]);
      FrontLeaves(r, drop, AllLost(r.items[..drop]), [x]);
    }
  }

  lemma PopConserves<T>(r: Ring<T>)
    requires Conserved(r)
    ensures Conserved(Taken(r))
  {
    if r.items != [] {
      assert Values([Gone(r.items[0], Popped)]) == r.items[..1];
      FrontLeaves(r, 1, [Gone(r.items[0], Popped)], []);
      assert r.items[1..] + [] == r.items[1..] && r.pushed + [] == r.pushed;
    }
  }

  lemma ResizeConserves<T>(r: Ring<T>, n: nat)
    requires Conserved(r)
    ensures Conserved(Resized(r, n))
  {
    var drop := if |r.items| > n then |r.items| - n else 0;
    LostValues(r.items[..drop]);
    FrontLeaves(r, drop, AllLost(r.items[..drop]), []);
    assert r.items[drop..] + [] == r.items[drop..] && r.pushed + [] == r.pushed;
  }

  lemma ApplyConserves<T>(r: Ring<T>, op: Op<T>)
    requires Conserved(r)
    ensures Conserved(Apply(r, op))
  {
    match op
    case Push(x) => PushConserves(r, x);
    case Pop => PopConserves(r);
    case SetCapacity(n) => ResizeConserves(r, n);
  }

  /** For any mix of pushes, pops and resizes. */
  lemma {:induction false} RunConserves<T>(ops: seq<Op<T>>)
    ensures Conserved(Play(Empty<T>(), ops))
    decreases |ops|
  {
    if ops != [] {
      RunConserves(ops[..|ops| - 1]);
      ApplyConserves(Play(Empty<T>(), ops[..|ops| - 1]), ops[|ops| - 1]);
    }
  }

  /** The popped elements, in the order they were popped. */
  function PoppedOf<T>(gone: seq<Gone<T>>): seq<T> {
    if gone == [] then []
    else PoppedOf(gone[..|gone| - 1]) + (if gone[|gone| - 1].fate.Popped? then [gone[|gone| - 1].value] else [])
  }

  /** `at` picks positions of xs in increasing order that spell ys. */
  ghost predicate Picks<T>(xs: seq<T>, ys: seq<T>, at: seq<nat>) {
    && |at| == |ys|
    && (forall i :: 0 <= i < |at| ==> at[i] < |xs| && xs[at[i]] == ys[i])
    && (forall i, j :: 0 <= i < j < |at| ==> at[i] < at[j])
  }

  lemma {:induction false} PoppedInOrder<T>(gone: seq<Gone<T>>) returns (at: seq<nat>)
    ensures Picks(Values(gone), PoppedOf(gone), at)
  {
    if gone == [] {
      at := [];
    } else {
      var n := |gone| - 1;
      at := PoppedInOrder(gone[..n]);
      assert Values(gone) == Values(gone[..n]) + [gone[n].value];
      if gone[n].fate.Popped? {
        at := at + [n];
      }
    }
  }

  /** Over every run the pops are an in-order subsequence of the pushes. */
  lemma PopsFollowPushes<T>(ops: seq<Op<T>>) returns (at: seq<nat>)
    ensures var r := Play(Empty<T>(), ops);
            Picks(r.pushed, PoppedOf(r.gone), at)
  {
    RunConserves(ops);
    var r := Play(Empty<T>(), ops);
    at := PoppedInOrder(r.gone);
    assert forall i :: 0 <= i < |r.gone| ==> r.pushed[i] == Values(r.gone)[i];
  }

  /** A push into a queue of non-zero capacity loses an element, the oldest, exactly when
      the queue held as many as its capacity; and a push issues a wake-up exactly when
      its element was enqueued. */
  lemma PushLosesWhenFull<T>(ops: seq<Op<T>>, x: T)
    ensures var r := Play(Empty<T>(), ops);
            var r' := Pushed(r, x);
            && (r.capacity != 0 ==> (|r'.gone| == |r.gone| + 1 <==> |r.items| == r.capacity))
            && (r.capacity != 0 && |r.items| == r.capacity ==> r'.gone == r.gone + [Gone(r.items[0], Lost)])
            && (r'.signals == r.signals + 1 <==> r'.items != []) && (r'.signals == r.signals <==> r'.items == [])
            && (r'.items != [] ==> r'.items[|r'.items| - 1] == x)
            && (r'.items == [] ==> r'.gone == r.gone + [Gone(x, Lost)])
  {
    RunConserves(ops);
    var r := Play(Empty<T>(), ops);
  }

  // ---- What the pops answer --------------------------------------------------------------

  /** What a pop answers. */
  function Answer<T>(r: Ring<T>, op: Op<T>): seq<T> {
    if op.Pop? && r.items != [] then [r.items[0]] else []
  }

  /** The values answered by the pops of a run, in order. */
  function Answers<T>(r: Ring<T>, ops: seq<Op<T>>): seq<T>
    decreases |ops|
  {
    if ops == [] then [] else Answers(r, ops[..|ops| - 1]) + Answer(Play(r, ops[..|ops| - 1]), ops[|ops| - 1])
  }

  lemma {:induction false} LostIsNotPopped<T>(gone: seq<Gone<T>>, xs: seq<T>)
    ensures PoppedOf(gone + AllLost(xs)) == PoppedOf(gone)
    decreases |xs|
  {
    if xs == [] {
      assert gone + AllLost(xs) == gone;
    } else {
      var n := |xs| - 1;
      LostIsNotPopped(gone, xs[..n]);
      var all := gone + AllLost(xs);
      assert all[..|all| - 1] == gone + AllLost(xs[..n]);
    }
  }

  lemma AnswerIsRecorded<T>(r: Ring<T>, op: Op<T>)
    ensures PoppedOf(Apply(r, op).gone) == PoppedOf(r.gone) + Answer(r, op)
  {
    match op
    case Push(x) =>
      if r.capacity == 0 {
        LostIsNotPopped(r.gone, [x]);
        assert AllLost([x]) == [Gone(x, Lost)];
      } else {
        LostIsNotPopped(r.gone, r.items[..if |r.items| >= r.capacity && r.items != [] then 1 else 0]);
      }
    case Pop =>
      if r.items != [] {
        var all := r.gone + [Gone(r.items[0], Popped)];
        assert all[..|all| - 1] == r.gone;
      }
    case SetCapacity(n) =>
      LostIsNotPopped(r.gone, r.items[..if |r.items| > n then |r.items| - n else 0]);
  }

  /** Over every run the elements recorded as popped are the values the pops answered. */
  lemma {:induction false} AnswersArePopped<T>(ops: seq<Op<T>>)
    ensures Answers(Empty<T>(), ops) == PoppedOf(Play(Empty<T>(), ops).gone)
    decreases |ops|
  {
    if ops != [] {
      AnswersArePopped(ops[..|ops| - 1]);
      AnswerIsRecorded(Play(Empty<T>(), ops[..|ops| - 1]), ops[|ops| - 1]);
    }
  }

  /** The answers of any run are an in-order subsequence of what was pushed. */
  lemma AnswersFollowPushes<T>(ops: seq<Op<T>>) returns (at: seq<nat>)
    ensures Picks(Play(Empty<T>(), ops).pushed, Answers(Empty<T>(), ops), at)
  {
    AnswersArePopped(ops);
    at := PopsFollowPushes(ops);
  }

  function Pops<T>(n: nat): (ops: seq<Op<T>>)
    ensures |ops| == n && forall i :: 0 <= i < n ==> ops[i] == Pop
  {
    seq(n, i => Pop)
  }

  /** Popping takes the elements out one by one: n pops of a queue answer its first n elements in
      order and leave the others. */
  lemma {:induction false} PopsDrain<T>(r: Ring<T>, n: nat)
    requires n <= |r.items|
    ensures Answers(r, Pops<T>(n)) == r.items[..n] && Play(r, Pops<T>(n)).items == r.items[n..]
    ensures Play(r, Pops<T>(n)).capacity == r.capacity && Play(r, Pops<T>(n)).pushed == r.pushed
  {
    if n > 0 {
      PopsDrain(r, n - 1);
      assert Pops<T>(n)[..n - 1] == Pops<T>(n - 1);
    }
  }
}
