/** reactive_circular_lossy_queue: a ring of optional slots with a head and a count, which
    refines RingRuns.Ring. */
module LossyRing {
  import opened Wrappers
  import opened RingRuns

  /** The slot i places after head. */
  function Slot(head: nat, i: nat, capacity: nat): int {
    if head + i < capacity then head + i else head + i - capacity
  }

  /** push, pop and set_capacity compute slots modulo the capacity. */
  lemma SlotIsModulo(head: nat, i: nat, capacity: nat)
    requires head < capacity && i <= capacity
    ensures 0 <= (head + i) % capacity == Slot(head, i, capacity) < capacity
  {
    if head + i >= capacity {
      ModuloWraps(head + i - capacity, capacity);
    }
  }

  lemma ModuloWraps(x: nat, m: nat)
    requires x < m
    ensures (x + m) % m == x
  {
    assert (x + m) / m == 1;
  }

  /** How far slot j is from head, going round. */
  function Distance(head: nat, j: nat, capacity: nat): int {
    if j >= head then j - head else j + capacity - head
  }

  /** The slots inside the window hold the items in order and all others are empty. */
  ghost predicate Holds<T>(slots: seq<Option<T>>, head: nat, items: seq<T>) {
    && (|slots| == 0 ==> items == []) && (|slots| > 0 ==> head < |slots|)
    && |items| <= |slots|
    && forall j :: 0 <= j < |slots| ==>
         slots[j] == if Distance(head, j, |slots|) < |items| then Some(items[Distance(head, j, |slots|)]) else None
  }

  lemma AppendHolds<T>(slots: seq<Option<T>>, head: nat, items: seq<T>, x: T)
    requires Holds(slots, head, items) && |items| < |slots|
    ensures var tail := Slot(head, |items|, |slots|);
            0 <= tail < |slots| && Holds(slots[tail := Some(x)], head, items + [x])
  {
  }

  lemma ReplaceHolds<T>(slots: seq<Option<T>>, head: nat, items: seq<T>, x: T)
    requires Holds(slots, head, items) && 0 < |items| == |slots|
    ensures var next := Slot(head, 1, |slots|);
            next >= 0 && Holds(slots[head := Some(x)], next, items[1..] + [x])
  {
  }

  lemma TakeHolds<T>(slots: seq<Option<T>>, head: nat, items: seq<T>)
    requires Holds(slots, head, items) && items != []
    ensures slots[head] == Some(items[0])
    ensures var next := Slot(head, 1, |slots|);
            next >= 0 && Holds(slots[head := None], next, items[1..])
  {
    assert Distance(head, head, |slots|) == 0;
  }

  lemma CopyHolds<T>(slots: seq<Option<T>>, items: seq<T>)
    requires |items| <= |slots|
    requires forall j :: 0 <= j < |slots| ==> slots[j] == if j < |items| then Some(items[j]) else None
    ensures Holds(slots, 0, items)
  {
  }

  /** A pop takes the first element out and records it; nothing else changes. */
  lemma TakenTakes<T>(r: Ring<T>)
    ensures var r' := Taken(r);
            && r'.items == (if r.items == [] then [] else r.items[1..])
            && PoppedOf(r'.gone) == PoppedOf(r.gone) + (if r.items == [] then [] else [r.items[0]])
            && r'.pushed == r.pushed && r'.capacity == r.capacity
  {
    AnswerIsRecorded(r, RingRuns.Pop);
  }

  /** What a resize keeps. */
  lemma ResizedItems<T>(r: Ring<T>, n: nat, keep: nat)
    requires keep == if |r.items| < n then |r.items| else n
    ensures Resized(r, n).items == r.items[|r.items| - keep..]
  {
  }

  class LossyRing<T> {
    var capacity: nat
    var head: nat
    var count: nat
    var slots: array<Option<T>>
    ghost var ring: Ring<T>

    ghost predicate Valid()
      reads this, slots
    {
      && slots.Length == capacity == ring.capacity && count == |ring.items|
      && Holds(slots[..], head, ring.items)
    }

    constructor ()
      ensures Valid() && fresh(slots) && ring == Empty<T>()
    {
      capacity, head, count := 0, 0, 0;
      slots := new Option<T>[0];
      ring := Empty();
    }

    /** Returns the occupancy before the call, and whether the reactor is to be woken. */
    method Push(u: T) returns (sizeBefore: nat, notify: bool)
      requires Valid()
      modifies this, slots
      ensures Valid() && slots == old(slots) && ring == Pushed(old(ring), u)
      ensures sizeBefore == |old(ring).items| && notify == (capacity != 0) && capacity == old(capacity)
      ensures notify == (ring.signals != old(ring).signals)
      ensures ring.items == if capacity == 0 then old(ring).items
                            else (if sizeBefore < capacity then old(ring).items else old(ring).items[1..]) + [u]
    {
      sizeBefore, notify := count, capacity != 0;
      if capacity == 0 {
        ring := Pushed(ring, u);  // the element is discarded
      } else if count < capacity {
        Append(u);
      } else {
        Overwrite(u);
      }
    }

    method Append(u: T)
      requires Valid() && count < capacity
      modifies this, slots
      ensures Valid() && slots == old(slots) && ring == Pushed(old(ring), u)
    {
      SlotIsModulo(head, count, capacity);
      AppendHolds(slots[..], head, ring.items, u);
      var tail := (head + count) % capacity;
      slots[tail] := Some(u);
      count := count + 1;
      assert slots[..] == old(slots[..])[tail := Some(u)];
      assert Pushed(ring, u).items == ring.items + [u];
      ring := Pushed(ring, u);
    }

    method Overwrite(u: T)
      requires Valid() && 0 < count == capacity
      modifies this, slots
      ensures Valid() && slots == old(slots) && ring == Pushed(old(ring), u)
    {
      SlotIsModulo(head, 1, capacity);
      ReplaceHolds(slots[..], head, ring.items, u);
      slots[head] := Some(u);
      assert slots[..] == old(slots[..])[head := Some(u)];
      head := (head + 1) % capacity;
      ring := Pushed(ring, u);
    }

    method Pop() returns (out: Option<T>)
      requires Valid()
      modifies this, slots
      ensures Valid() && slots == old(slots) && ring == Taken(old(ring))
      ensures out == if old(ring).items == [] then None else Some(old(ring).items[0])
      ensures ring.items == if old(ring).items == [] then [] else old(ring).items[1..]
      ensures PoppedOf(ring.gone) == PoppedOf(old(ring).gone) + (if out.None? then [] else [out.value])
      ensures ring.pushed == old(ring).pushed && capacity == old(capacity)
    {
      TakenTakes(ring);
      if count == 0 {
        return None;
      }
      out := TakeHead();
    }

    method TakeHead() returns (out: Option<T>)
      requires Valid() && count > 0
      modifies this, slots
      ensures Valid() && slots == old(slots) && ring == Taken(old(ring)) && out == Some(old(ring).items[0])
    {
      TakeHolds(slots[..], head, ring.items);
      out := slots[head];
      slots[head] := None;
      assert slots[..] == old(slots[..])[head := None];
      SlotIsModulo(head, 1, capacity);
      head := (head + 1) % capacity;
      count := count - 1;
      ring := Taken(ring);
    }

    method SetCapacity(n: nat)
      requires Valid()
      modifies this
      ensures Valid() && (slots == old(slots) || fresh(slots)) && ring == Resized(old(ring), n)
      ensures capacity == n && ring.pushed == old(ring).pushed
      ensures ring.items == if |old(ring).items| <= n then old(ring).items else old(ring).items[|old(ring).items| - n..]
    {
      var keep := if capacity == 0 then 0 else if count < n then count else n;
      ResizedItems(ring, n, keep);
      if n == capacity {
        ring := Resized(ring, n);
        return;
      }
      var newSlots := Newest(n, keep);
      CopyHolds(newSlots[..], ring.items[count - keep..]);
      Install(newSlots, keep);
    }

    /** The new vector replaces the old one. */
    method Install(newSlots: array<Option<T>>, keep: nat)
      requires Holds(newSlots[..], 0, Resized(ring, newSlots.Length).items)
      requires keep == |Resized(ring, newSlots.Length).items|
      modifies this
      ensures Valid() && slots == newSlots && ring == Resized(old(ring), newSlots.Length)
    {
      ring := Resized(ring, newSlots.Length);
      slots := newSlots;
      capacity, head, count := newSlots.Length, 0, keep;
    }

    /** A new vector of n slots with the newest `keep` elements moved to its front. */
    method Newest(n: nat, keep: nat) returns (newSlots: array<Option<T>>)
      requires Valid() && keep <= count && keep <= n
      ensures fresh(newSlots) && newSlots.Length == n
      ensures forall j :: 0 <= j < n ==> newSlots[j] == if j < keep then Some(ring.items[count - keep + j]) else None
    {
      newSlots := new Option<T>[n](_ => None);
      if keep != 0 {
        var drop := count - keep;
        SlotIsModulo(head, drop, capacity);
        var idx := (head + drop) % capacity;
        for i := 0 to keep
          modifies newSlots
          invariant 0 <= idx < capacity && Distance(head, idx, capacity) == if drop + i < capacity then drop + i else 0
          invariant forall j :: 0 <= j < n ==> newSlots[j] == if j < i then Some(ring.items[drop + j]) else None
        {
          assert slots[..][idx] == Some(ring.items[drop + i]);
          newSlots[i] := slots[idx];
          SlotIsModulo(idx, 1, capacity);
          idx := (idx + 1) % capacity;
        }
      }
    }
  }
}
