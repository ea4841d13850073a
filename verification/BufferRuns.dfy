/** shared_sized_buffer objects and the storages they share, as one world: views refer to
    storages by number, so aliasing is explicit.  Views are copied, moved, assigned, resized
    and destroyed; a storage lives as long as its reference count is not zero. */
module BufferRuns {
  import opened Wrappers

  type Byte = bv8

  datatype View = View(storage: Option<nat>, offset: nat, size: nat)

  datatype Storage = Storage(bytes: seq<Byte>, refs: int, hasRelease: bool)

  /** `released` is the order in which release functions were run, by storage number;
      `releasable` the storages created with a release function. */
  datatype World = World(views: map<nat, View>, storages: map<nat, Storage>, next: nat,
                         released: seq<nat>, releasable: set<nat>)

  const NO_VIEW: View := View(None, 0, 0)
  const EMPTY: World := World(map[], map[], 0, [], {})

  function StorageOf(w: World, v: nat): Option<nat> {
    if v in w.views then w.views[v].storage else None
  }

  predicate LiveStorage(w: World, s: Option<nat>) {
    s.Some? ==> s.value in w.storages
  }

  // ---- acquire, release_ref --------------------------------------------------------

  function Acquire(w: World, s: Option<nat>): World
    requires LiveStorage(w, s)
  {
    if s.None? then w
    else w.(storages := w.storages[s.value := w.storages[s.value].(refs := w.storages[s.value].refs + 1)])
  }

  /** Deletes the storage, and runs its release function, when the count was one. */
  function Release(w: World, s: Option<nat>): World
    requires LiveStorage(w, s)
  {
    if s.None? then w
    else if w.storages[s.value].refs == 1 then
      w.(storages := w.storages - {s.value},
         released := if w.storages[s.value].hasRelease then w.released + [s.value] else w.released)
    else w.(storages := w.storages[s.value := w.storages[s.value].(refs := w.storages[s.value].refs - 1)])
  }

  function SetView(w: World, v: nat, x: View): World {
    w.(views := w.views[v := x])
  }

  // ---- Operations ------------------------------------------------------------------

  /** Copy construction, copy assignment, subview, clear: take the new reference, then drop
      the old one. */
  function Retarget(w: World, v: nat, x: View): World
    requires LiveStorage(w, x.storage) && LiveStorage(w, StorageOf(w, v))
  {
    Release(SetView(Acquire(w, x.storage), v, x), StorageOf(w, v))
  }

  /** Move construction and assignment: the reference changes hands. */
  function MoveInto(w: World, v: nat, o: nat): World
    requires v != o && o in w.views && LiveStorage(w, StorageOf(w, v))
  {
    Release(SetView(SetView(w, v, w.views[o]), o, NO_VIEW), StorageOf(w, v))
  }

  /** A new storage, with one reference for the view about to hold it. */
  function Created(w: World, bytes: seq<Byte>, hasRelease: bool): World {
    w.(storages := w.storages[w.next := Storage(bytes, 1, hasRelease)], next := w.next + 1,
       releasable := if hasRelease then w.releasable + {w.next} else w.releasable)
  }

  /** allocate, adopt and a growing reserve. */
  function Install(w: World, v: nat, bytes: seq<Byte>, size: nat, hasRelease: bool): World
    requires LiveStorage(w, StorageOf(w, v))
  {
    Release(SetView(Created(w, bytes, hasRelease), v, View(Some(w.next), 0, size)), StorageOf(w, v))
  }

  function Destroyed(w: World, v: nat): World
    requires LiveStorage(w, StorageOf(w, v))
  {
    var w' := Retarget(w, v, NO_VIEW);
    w'.(views := w'.views - {v})
  }

  /** adopt with unusable arguments: the block is released at once. */
  function Rejected(w: World, v: nat, hasRelease: bool): World
    requires LiveStorage(w, StorageOf(w, v))
  {
    SetView(w, v, NO_VIEW).(next := w.next + 1,
                            released := if hasRelease then w.released + [w.next] else w.released,
                            releasable := if hasRelease then w.releasable + {w.next} else w.releasable)
  }

  /** adopt; no data: a null pointer. */
  function Adopted(w: World, v: nat, data: Option<seq<Byte>>, size: nat, hasRelease: bool): World
    requires LiveStorage(w, StorageOf(w, v))
  {
    if data.None? then SetView(w, v, NO_VIEW)
    else if data.value == [] || size > |data.value| then Rejected(w, v, hasRelease)
    else Install(w, v, data.value, size, hasRelease)
  }

  // ---- Invariant -------------------------------------------------------------------

  function Viewers(views: map<nat, View>, s: nat): set<nat> {
    set v | v in views && views[v].storage == Some(s)
  }

  /** A view is empty or a window inside a live storage. */
  predicate Fits(w: World, x: View) {
    if x.storage.None? then x == NO_VIEW
    else x.storage.value in w.storages && x.offset + x.size <= |w.storages[x.storage.value].bytes|
  }

  ghost predicate ViewsInv(w: World) {
    forall v :: v in w.views ==> Fits(w, w.views[v])
  }

  /** The reference count is the number of views. */
  ghost predicate RefsInv(w: World) {
    forall s :: s in w.storages ==> w.storages[s].refs == |Viewers(w.views, s)| >= 1
  }

  /** A storage that is gone was released exactly once if it had a release function, and a
      live one never. */
  ghost predicate ReleaseInv(w: World) {
    && (forall s :: s in w.storages ==> s < w.next)
    && (forall s :: s in w.storages ==> (w.storages[s].hasRelease <==> s in w.releasable))
    && (forall s :: s in w.releasable ==> s < w.next)
    && (forall s :: s in w.released <==> s in w.releasable && s !in w.storages)
    && (forall i, j :: 0 <= i < j < |w.released| ==> w.released[i] != w.released[j])
  }

  ghost predicate Inv(w: World) {
    ViewsInv(w) && RefsInv(w) && ReleaseInv(w)
  }

  lemma ViewersAfter(views: map<nat, View>, v: nat, x: View, s: nat)
    ensures var n := |Viewers(views, s)|;
            |Viewers(views[v := x], s)|
            == n - (if v in views && views[v].storage == Some(s) then 1 else 0)
                 + (if x.storage == Some(s) then 1 else 0)
  {
    var was, now := Viewers(views, s), Viewers(views[v := x], s);
    assert now - {v} == was - {v};
    WithOrWithout(was, v);
    WithOrWithout(now, v);
  }

  lemma WithOrWithout(xs: set<nat>, v: nat)
    ensures |xs| == |xs - {v}| + if v in xs then 1 else 0
  {
    assert xs - {v} == if v in xs then xs - {v} else xs;
  }

  /** A viewed storage has a viewer. */
  lemma Viewed(views: map<nat, View>, v: nat, s: nat)
    requires v in views && views[v].storage == Some(s)
    ensures |Viewers(views, s)| >= 1
  {
    var rest := Viewers(views, s) - {v};
    assert Viewers(views, s) == rest + {v};
  }

  /** In the middle of an operation the reference in `held` is counted but no view has it. */
  ghost predicate Owing(w: World, held: Option<nat>) {
    && ViewsInv(w) && ReleaseInv(w) && LiveStorage(w, held)
    && forall s :: s in w.storages ==>
         && w.storages[s].refs == |Viewers(w.views, s)| + (if held == Some(s) then 1 else 0)
         && w.storages[s].refs >= 1
  }

  lemma ReleaseKeeps(w: World, held: Option<nat>)
    requires Owing(w, held)
    ensures Inv(Release(w, held))
  {
    if held.Some? && w.storages[held.value].refs == 1 {
      forall v | v in w.views ensures w.views[v].storage != held {
        if w.views[v].storage == held {
          Viewed(w.views, v, held.value);
        }
      }
    }
  }

  lemma RetargetKeeps(w: World, v: nat, x: View)
    requires Inv(w) && Fits(w, x)
    ensures LiveStorage(w, StorageOf(w, v)) && Inv(Retarget(w, v, x))
  {
    var w1 := SetView(Acquire(w, x.storage), v, x);
    forall s | s in w1.storages
      ensures w1.storages[s].refs == |Viewers(w1.views, s)| + (if StorageOf(w, v) == Some(s) then 1 else 0)
              && w1.storages[s].refs >= 1
    {
      ViewersAfter(w.views, v, x, s);
    }
    ReleaseKeeps(w1, StorageOf(w, v));
  }

  lemma MoveKeeps(w: World, v: nat, o: nat)
    requires Inv(w) && v != o && o in w.views
    ensures LiveStorage(w, StorageOf(w, v)) && Inv(MoveInto(w, v, o))
  {
    var w1 := SetView(w, v, w.views[o]);
    var w2 := SetView(w1, o, NO_VIEW);
    forall s | s in w2.storages
      ensures w2.storages[s].refs == |Viewers(w2.views, s)| + (if StorageOf(w, v) == Some(s) then 1 else 0)
    {
      ViewersAfter(w.views, v, w.views[o], s);
      ViewersAfter(w1.views, o, NO_VIEW, s);
    }
    ReleaseKeeps(w2, StorageOf(w, v));
  }

  lemma NoViewersYet(w: World, s: nat)
    requires ViewsInv(w) && s !in w.storages
    ensures Viewers(w.views, s) == {}
  {
  }

  lemma InstallKeeps(w: World, v: nat, bytes: seq<Byte>, size: nat, hasRelease: bool)
    requires Inv(w) && size <= |bytes|
    ensures LiveStorage(w, StorageOf(w, v)) && Inv(Install(w, v, bytes, size, hasRelease))
  {
    var x := View(Some(w.next), 0, size);
    var w1 := SetView(Created(w, bytes, hasRelease), v, x);
    NoViewersYet(w, w.next);
    forall s | s in w1.storages
      ensures w1.storages[s].refs == |Viewers(w1.views, s)| + (if StorageOf(w, v) == Some(s) then 1 else 0)
    {
      ViewersAfter(w.views, v, x, s);
    }
    ReleaseKeeps(w1, StorageOf(w, v));
  }

  lemma DestroyKeeps(w: World, v: nat)
    requires Inv(w)
    ensures LiveStorage(w, StorageOf(w, v)) && Inv(Destroyed(w, v))
  {
    RetargetKeeps(w, v, NO_VIEW);
    var w1 := Retarget(w, v, NO_VIEW);
    forall s ensures Viewers(w1.views - {v}, s) == Viewers(w1.views, s) {}
  }

  lemma RejectKeeps(w: World, v: nat, hasRelease: bool)
    requires Inv(w) && v !in w.views
    ensures Inv(Rejected(w, v, hasRelease))
  {
    forall s ensures Viewers(w.views[v := NO_VIEW], s) == Viewers(w.views, s) {}
  }

  // ---- The public operations -------------------------------------------------------------

  /** The bytes of a window. */
  function Shown(w: World, x: View): (bytes: seq<Byte>)
    requires Fits(w, x)
    ensures |bytes| == x.size
  {
    if x.storage.None? then [] else w.storages[x.storage.value].bytes[x.offset..x.offset + x.size]
  }

  /** The bytes a view shows. */
  function Bytes(w: World, v: nat): seq<Byte>
    requires v in w.views && Fits(w, w.views[v])
  {
    Shown(w, w.views[v])
  }

  function Capacity(w: World, v: nat): int
    requires v in w.views && Fits(w, w.views[v])
  {
    var x := w.views[v];
    if x.storage.None? then 0 else |w.storages[x.storage.value].bytes| - x.offset
  }

  /** A window of n bytes at `offset` into the view, empty when out of range. */
  function Sub(x: View, offset: nat, n: nat): View {
    if x.storage.None? || offset > x.size || n > x.size - offset then NO_VIEW
    else View(x.storage, x.offset + offset, n)
  }

  /** `memory` is what the allocator returns; its length is the requested capacity. */
  function Reserved(w: World, v: nat, memory: seq<Byte>): World
    requires v in w.views && Fits(w, w.views[v])
  {
    var x := w.views[v];
    if x.offset != 0 || |memory| <= Capacity(w, v) then w
    else Install(w, v, Bytes(w, v) + memory[x.size..], x.size, true)
  }

  function Resized(w: World, v: nat, memory: seq<Byte>): World
    requires v in w.views && Fits(w, w.views[v])
  {
    var n := |memory|;
    if w.views[v].offset != 0 then w
    else
      var w1 := if n > Capacity(w, v) then Reserved(w, v, memory) else w;
      SetView(w1, v, w1.views[v].(size := n))
  }

  datatype Op =
    | Default(v: nat)
    | Copy(v: nat, o: nat)
    | AssignCopy(v: nat, o: nat)
    | Move(v: nat, o: nat)
    | AssignMove(v: nat, o: nat)
    | Destroy(v: nat)
    | Allocate(v: nat, memory: seq<Byte>)
    | Adopt(v: nat, data: Option<seq<Byte>>, size: nat, hasRelease: bool)
    | Clear(v: nat)
    | Reserve(v: nat, memory: seq<Byte>)
    | Resize(v: nat, memory: seq<Byte>)
    | Subview(v: nat, o: nat, offset: nat, n: nat)

  predicate Constructs(op: Op) {
    op.Default? || op.Copy? || op.Move? || op.Allocate? || op.Adopt? || op.Subview?
  }

  predicate Reads(op: Op) {
    op.Copy? || op.AssignCopy? || op.Move? || op.AssignMove? || op.Subview?
  }

  /** A constructed view is new, every other view mentioned is alive. */
  predicate Enabled(w: World, op: Op) {
    && (Constructs(op) <==> op.v !in w.views)
    && (Reads(op) ==> op.o in w.views)
  }

  ghost function Apply(w: World, op: Op): World
    requires Inv(w) && Enabled(w, op)
  {
    match op
    case Default(v) => SetView(w, v, NO_VIEW)
    case Copy(v, o) => Retarget(w, v, w.views[o])
    case AssignCopy(v, o) => if v == o then w else Retarget(w, v, w.views[o])
    case Move(v, o) => MoveInto(w, v, o)
    case AssignMove(v, o) => if v == o then w else MoveInto(w, v, o)
    case Destroy(v) => Destroyed(w, v)
    case Allocate(v, memory) => if memory == [] then SetView(w, v, NO_VIEW) else Install(w, v, memory, 0, true)
    case Adopt(v, data, size, hasRelease) => Adopted(w, v, data, size, hasRelease)
    case Clear(v) => Retarget(w, v, NO_VIEW)
    case Reserve(v, memory) => Reserved(w, v, memory)
    case Resize(v, memory) => Resized(w, v, memory)
    case Subview(v, o, offset, n) => Retarget(w, v, Sub(w.views[o], offset, n))
  }

  /** Changing the window of a view inside its storage moves no reference. */
  lemma WindowKeeps(w: World, v: nat, x: View)
    requires Inv(w) && Fits(w, x) && StorageOf(w, v) == x.storage
    ensures Inv(SetView(w, v, x))
  {
    forall s | s in w.storages ensures |Viewers(w.views[v := x], s)| == |Viewers(w.views, s)| {
      ViewersAfter(w.views, v, x, s);
    }
  }

  lemma ReservedKeeps(w: World, v: nat, memory: seq<Byte>)
    requires Inv(w) && v in w.views
    ensures Inv(Reserved(w, v, memory)) && v in Reserved(w, v, memory).views
  {
    var x := w.views[v];
    if x.offset == 0 && |memory| > Capacity(w, v) {
      InstallKeeps(w, v, Bytes(w, v) + memory[x.size..], x.size, true);
    }
  }

  lemma ResizedKeeps(w: World, v: nat, memory: seq<Byte>)
    requires Inv(w) && v in w.views
    ensures Inv(Resized(w, v, memory))
  {
    if w.views[v].offset == 0 {
      ReservedKeeps(w, v, memory);
      var w1 := if |memory| > Capacity(w, v) then Reserved(w, v, memory) else w;
      WindowKeeps(w1, v, w1.views[v].(size := |memory|));
    }
  }

  lemma CreateKeeps(w: World, op: Op)
    requires Inv(w) && Enabled(w, op) && (op.Default? || op.Allocate? || op.Adopt?)
    ensures Inv(Apply(w, op))
  {
    WindowKeeps(w, op.v, NO_VIEW);
    if op.Allocate? {
      InstallKeeps(w, op.v, op.memory, 0, true);
    } else if op.Adopt? && op.data.Some? {
      if op.data.value == [] || op.size > |op.data.value| {
        RejectKeeps(w, op.v, op.hasRelease);
      } else {
        InstallKeeps(w, op.v, op.data.value, op.size, op.hasRelease);
      }
    }
  }

  lemma TransferKeeps(w: World, op: Op)
    requires Inv(w) && Enabled(w, op) && Reads(op)
    ensures Inv(Apply(w, op))
  {
    match op
    case Copy(v, o) => RetargetKeeps(w, v, w.views[o]);
    case AssignCopy(v, o) => RetargetKeeps(w, v, w.views[o]);
    case Move(v, o) => MoveKeeps(w, v, o);
    case AssignMove(v, o) => if v != o { MoveKeeps(w, v, o); }
    case Subview(v, o, offset, n) => RetargetKeeps(w, v, Sub(w.views[o], offset, n));
  }

  lemma ApplyKeeps(w: World, op: Op)
    requires Inv(w) && Enabled(w, op)
    ensures Inv(Apply(w, op))
  {
    if Reads(op) {
      TransferKeeps(w, op);
    } else if Constructs(op) {
      CreateKeeps(w, op);
    } else {
      match op
      case Destroy(v) => DestroyKeeps(w, v);
      case Clear(v) => RetargetKeeps(w, v, NO_VIEW);
      case Reserve(v, memory) => ReservedKeeps(w, v, memory);
      case Resize(v, memory) => ResizedKeeps(w, v, memory);
    }
  }

  // ---- Bytes -------------------------------------------------------------------------------

  /** Storages keep their bytes while they live, and views other than v and o their window. */
  ghost predicate Undisturbed(w: World, w': World, v: nat, o: nat) {
    && (forall s :: s in w.storages && s in w'.storages ==> w'.storages[s].bytes == w.storages[s].bytes)
    && (forall u :: u in w.views && u != v && u != o ==> u in w'.views && w'.views[u] == w.views[u])
  }

  lemma RetargetUndisturbed(w: World, v: nat, x: View)
    requires LiveStorage(w, x.storage) && LiveStorage(w, StorageOf(w, v))
    ensures Undisturbed(w, Retarget(w, v, x), v, v)
    ensures Undisturbed(w, Destroyed(w, v), v, v)
  {
  }

  lemma MoveUndisturbed(w: World, v: nat, o: nat)
    requires v != o && o in w.views && LiveStorage(w, StorageOf(w, v))
    ensures Undisturbed(w, MoveInto(w, v, o), v, o)
  {
  }

  lemma InstallUndisturbed(w: World, v: nat, bytes: seq<Byte>, size: nat, hasRelease: bool)
    requires Inv(w) && LiveStorage(w, StorageOf(w, v))
    ensures Undisturbed(w, Install(w, v, bytes, size, hasRelease), v, v)
  {
    assert w.next !in w.storages;
  }

  lemma ReservedUndisturbed(w: World, v: nat, memory: seq<Byte>)
    requires Inv(w) && v in w.views
    ensures Undisturbed(w, Reserved(w, v, memory), v, v)
    ensures Undisturbed(w, Resized(w, v, memory), v, v)
  {
    var x := w.views[v];
    if x.offset == 0 && |memory| > Capacity(w, v) {
      InstallUndisturbed(w, v, Bytes(w, v) + memory[x.size..], x.size, true);
    }
  }

  lemma CreateUndisturbed(w: World, op: Op)
    requires Inv(w) && Enabled(w, op) && (op.Default? || op.Allocate? || op.Adopt?)
    ensures Undisturbed(w, Apply(w, op), op.v, op.v)
  {
    match op
    case Default(v) =>
    case Allocate(v, memory) => InstallUndisturbed(w, v, memory, 0, true);
    case Adopt(v, data, size, hasRelease) =>
      if data.Some? { InstallUndisturbed(w, v, data.value, size, hasRelease); }
  }

  lemma TransferUndisturbed(w: World, op: Op)
    requires Inv(w) && Enabled(w, op) && Reads(op)
    ensures Undisturbed(w, Apply(w, op), op.v, if op.Move? || op.AssignMove? then op.o else op.v)
  {
    match op
    case Copy(v, o) => RetargetUndisturbed(w, v, w.views[o]);
    case AssignCopy(v, o) => RetargetUndisturbed(w, v, w.views[o]);
    case Move(v, o) => MoveUndisturbed(w, v, o);
    case AssignMove(v, o) => if v != o { MoveUndisturbed(w, v, o); }
    case Subview(v, o, offset, n) => RetargetUndisturbed(w, v, Sub(w.views[o], offset, n));
  }

  lemma ApplyUndisturbed(w: World, op: Op)
    requires Inv(w) && Enabled(w, op)
    ensures Undisturbed(w, Apply(w, op), op.v, if op.Move? || op.AssignMove? then op.o else op.v)
  {
    if Reads(op) {
      TransferUndisturbed(w, op);
    } else if Constructs(op) {
      CreateUndisturbed(w, op);
    } else {
      match op
      case Destroy(v) => RetargetUndisturbed(w, v, NO_VIEW);
      case Clear(v) => RetargetUndisturbed(w, v, NO_VIEW);
      case Reserve(v, memory) => ReservedUndisturbed(w, v, memory);
      case Resize(v, memory) => ReservedUndisturbed(w, v, memory);
    }
  }

  /** No operation changes the bytes, the window or the storage of any view but the one it is
      applied to, and a move's source. */
  lemma OtherViewsUnchanged(w: World, op: Op, u: nat)
    requires Inv(w) && Enabled(w, op) && u in w.views && u != op.v && (op.Move? || op.AssignMove? ==> u != op.o)
    ensures var w' := Apply(w, op);
            Inv(w') && u in w'.views && w'.views[u] == w.views[u] && Bytes(w', u) == Bytes(w, u)
  {
    ApplyKeeps(w, op);
    ApplyUndisturbed(w, op);
  }

  /** resize and reserve keep the first min(old, new) bytes of the view; on a subview that
      does not start the storage they do nothing. */
  lemma ResizeKeepsPrefix(w: World, v: nat, memory: seq<Byte>)
    requires Inv(w) && v in w.views
    ensures var w' := Resized(w, v, memory);
            && Inv(w') && v in w'.views
            && (w.views[v].offset != 0 ==> w' == w)
            && (w.views[v].offset == 0 ==>
                  && |Bytes(w', v)| == |memory|
                  && forall i :: 0 <= i < |Bytes(w, v)| && i < |memory| ==> Bytes(w', v)[i] == Bytes(w, v)[i])
  {
    ResizedKeeps(w, v, memory);
  }

  lemma ReserveKeepsBytes(w: World, v: nat, memory: seq<Byte>)
    requires Inv(w) && v in w.views
    ensures var w' := Reserved(w, v, memory);
            && Inv(w') && v in w'.views && Bytes(w', v) == Bytes(w, v)
            && (w.views[v].offset == 0 ==> Capacity(w', v) >= |memory|)
  {
    ReservedKeeps(w, v, memory);
  }

  /** A subview of a subview is the subview at the summed offset exactly when the outer
      request lies inside the view and the inner one inside the outer, or the summed one lies
      outside the view and both are empty. */
  lemma NestedSubview(x: View, a: nat, n: nat, b: nat, m: nat)
    ensures Sub(Sub(x, a, n), b, m) == Sub(x, a + b, m) <==>
            x.storage.None? || (a + n <= x.size && b + m <= n) || a + b + m > x.size
  {
  }

  /** It is not always so: an outer request that is out of range is answered with an empty
      view, whose subviews are empty too. */
  lemma NestedSubviewDiffers()
    ensures var x := View(Some(0), 0, 10);
            && Sub(Sub(x, 4, 8), 0, 2) == NO_VIEW && Sub(x, 4, 2) == View(Some(0), 4, 2)
            && Sub(Sub(x, 4, 2), 0, 3) == NO_VIEW && Sub(x, 4, 3) == View(Some(0), 4, 3)
  {
  }

  // ---- What the operations show ------------------------------------------------------------

  /** The bytes of a window that lies in a storage of both worlds. */
  lemma SameWindow(w: World, w': World, u: nat, v: nat)
    requires u in w.views && Fits(w, w.views[u]) && v in w'.views && Fits(w', w'.views[v])
    requires w'.views[v] == w.views[u]
    requires forall s :: s in w.storages && s in w'.storages ==> w'.storages[s].bytes == w.storages[s].bytes
    ensures Bytes(w', v) == Bytes(w, u)
  {
  }

  /** Copying and copy assignment make the target show what the source shows, and leave the source;
      self-assignment changes nothing. */
  lemma CopyShows(w: World, op: Op)
    requires Inv(w) && Enabled(w, op) && (op.Copy? || op.AssignCopy?)
    ensures var w' := Apply(w, op);
            && Inv(w') && op.v in w'.views && op.o in w'.views
            && w'.views[op.v] == w'.views[op.o] == w.views[op.o]
            && Bytes(w', op.v) == Bytes(w', op.o) == Bytes(w, op.o)
            && (op.v == op.o ==> w' == w)
  {
    ApplyKeeps(w, op);
    ApplyUndisturbed(w, op);
    SameWindow(w, Apply(w, op), op.o, op.v);
    SameWindow(w, Apply(w, op), op.o, op.o);
  }

  lemma MovedViews(w: World, v: nat, o: nat)
    requires v != o && o in w.views && LiveStorage(w, StorageOf(w, v))
    ensures MoveInto(w, v, o).views == w.views[v := w.views[o]][o := NO_VIEW]
  {
  }

  /** Moving makes the target show what the source showed, and leaves the source empty;
      self-assignment changes nothing. */
  lemma MoveShows(w: World, op: Op)
    requires Inv(w) && Enabled(w, op) && (op.Move? || op.AssignMove?)
    ensures var w' := Apply(w, op);
            && Inv(w') && op.v in w'.views && op.o in w'.views
            && w'.views[op.v] == w.views[op.o] && Bytes(w', op.v) == Bytes(w, op.o)
            && (if op.v == op.o then w' == w else w'.views[op.o] == NO_VIEW)
  {
    ApplyKeeps(w, op);
    ApplyUndisturbed(w, op);
    if op.v != op.o {
      MovedViews(w, op.v, op.o);
    }
    SameWindow(w, Apply(w, op), op.o, op.v);
  }

  /** The part of a view's bytes that its subview shows. */
  lemma SubBytes(w: World, x: View, offset: nat, n: nat)
    requires Fits(w, x)
    ensures Fits(w, Sub(x, offset, n))
    ensures Shown(w, Sub(x, offset, n)) == if offset + n <= x.size then Shown(w, x)[offset..offset + n] else []
  {
  }

  lemma SubviewViews(w: World, v: nat, o: nat, offset: nat, n: nat)
    requires Inv(w) && Enabled(w, Subview(v, o, offset, n))
    ensures Apply(w, Subview(v, o, offset, n)).views == w.views[v := Sub(w.views[o], offset, n)]
  {
    assert Fits(w, w.views[o]);
  }

  /** A subview shows its part of the view, without taking anything from it; out of range, nothing. */
  lemma SubviewShows(w: World, v: nat, o: nat, offset: nat, n: nat)
    requires Inv(w) && Enabled(w, Subview(v, o, offset, n))
    ensures var w' := Apply(w, Subview(v, o, offset, n));
            && Inv(w') && v in w'.views && o in w'.views && w'.views[o] == w.views[o]
            && Bytes(w', v) == (if offset + n <= |Bytes(w, o)| then Bytes(w, o)[offset..offset + n] else [])
            && (offset + n <= |Bytes(w, o)| && w.views[o].storage.Some? ==> w'.views[v].storage == w.views[o].storage)
  {
    ApplyKeeps(w, Subview(v, o, offset, n));
    ApplyUndisturbed(w, Subview(v, o, offset, n));
    SubviewViews(w, v, o, offset, n);
    var w' := Apply(w, Subview(v, o, offset, n));
    SameWindow(w, w', o, o);
    SubBytes(w', w'.views[o], offset, n);
  }

  /** An adopted block is shown up to the given size and will be released as asked; one that cannot
      be adopted is released at once, and nothing is shown. */
  lemma AdoptShows(w: World, v: nat, data: seq<Byte>, size: nat, hasRelease: bool)
    requires Inv(w) && v !in w.views
    ensures var w' := Apply(w, Adopt(v, Some(data), size, hasRelease));
            && Inv(w') && v in w'.views
            && if data != [] && size <= |data| then
                 && Bytes(w', v) == data[..size] && Capacity(w', v) == |data|
                 && w'.views[v].storage.Some? && w'.views[v].storage.value !in w.storages
                 && w'.storages[w'.views[v].storage.value].hasRelease == hasRelease && w'.released == w.released
               else w'.views[v] == NO_VIEW && w'.storages == w.storages
                    && |w'.released| == |w.released| + (if hasRelease then 1 else 0)
  {
    ApplyKeeps(w, Adopt(v, Some(data), size, hasRelease));
  }

  /** A null pointer and a capacity of zero give an empty view; other allocations an empty view of
      new memory. */
  lemma AllocateShows(w: World, v: nat, memory: seq<Byte>)
    requires Inv(w) && v !in w.views
    ensures var w' := Apply(w, Allocate(v, memory));
            && Inv(w') && v in w'.views && Bytes(w', v) == [] && Capacity(w', v) == |memory|
            && (memory != [] ==> w'.views[v].storage.Some? && w'.views[v].storage.value !in w.storages
                                 && w'.storages[w'.views[v].storage.value].hasRelease)
    ensures Apply(w, Adopt(v, None, 0, true)) == Apply(w, Default(v))
    ensures Apply(w, Default(v)).views == w.views[v := NO_VIEW] && Apply(w, Default(v)).storages == w.storages
  {
    ApplyKeeps(w, Allocate(v, memory));
  }

  /** A cleared view is empty, a destroyed one is gone. */
  lemma ClearShows(w: World, v: nat)
    requires Inv(w) && v in w.views
    ensures Apply(w, Clear(v)).views == w.views[v := NO_VIEW]
    ensures Apply(w, Destroy(v)).views == w.views - {v}
  {
  }

  // ---- Whole runs ----------------------------------------------------------------------------

  /** Any sequence of operations, each on views that exist at that point; None otherwise. */
  ghost function Play(w: World, ops: seq<Op>): (r: Option<World>)
    requires Inv(w)
    ensures r.Some? ==> Inv(r.value)
    decreases |ops|
  {
    if ops == [] then Some(w)
    else if !Enabled(w, ops[0]) then None
    else
      ApplyKeeps(w, ops[0]);
      Play(Apply(w, ops[0]), ops[1..])
  }

  /** For any set of views under any operations: the count is the number of views, which is
      positive as long as the storage lives; every window lies inside its storage; a storage
      that is gone ran its release function exactly once if it had one, a live one never. */
  lemma RefcountExact(ops: seq<Op>)
    requires Play(EMPTY, ops).Some?
    ensures var w := Play(EMPTY, ops).value;
            && (forall s :: s in w.storages ==> w.storages[s].refs == |Viewers(w.views, s)| >= 1)
            && (forall v :: v in w.views && w.views[v].storage.Some? ==>
                  var x := w.views[v];
                  x.storage.value in w.storages && x.offset + x.size <= |w.storages[x.storage.value].bytes|)
            && (forall s :: s in w.released <==> s in w.releasable && s !in w.storages)
            && (forall i, j :: 0 <= i < j < |w.released| ==> w.released[i] != w.released[j])
  {
    assert Inv(Play(EMPTY, ops).value);
  }

  /** Once every view is gone, so is every storage. */
  lemma NoLeak(ops: seq<Op>)
    requires Play(EMPTY, ops).Some? && Play(EMPTY, ops).value.views == map[]
    ensures var w := Play(EMPTY, ops).value;
            w.storages == map[] && forall s :: s in w.released <==> s in w.releasable
  {
    var w := Play(EMPTY, ops).value;
    forall s ensures s !in w.storages {
      assert Viewers(w.views, s) == {};
    }
  }
}
