/** shared_sized_buffer on the heap: a view is an object with a pointer to a shared storage
    object, whose bytes are an array.

    Every object has a name, and a Registry says which ones are alive and what they hold, as a
    BufferRuns world.  The registry is ghost: the operations look only at the objects.  No
    operation has an existing array of bytes in its modifies clause. */
module SharedBuffer {
  import opened Wrappers
  import opened BufferRuns

  class Block {
    ghost const name: nat
    const bytes: array<Byte>
    const hasRelease: bool
    var refs: int

    constructor (bytes: array<Byte>, hasRelease: bool, ghost name: nat)
      ensures this.bytes == bytes && this.hasRelease == hasRelease && refs == 1 && this.name == name
    {
      this.bytes, this.hasRelease, this.refs, this.name := bytes, hasRelease, 1, name;
    }
  }

  datatype Registry = Registry(repr: set<object>, views: map<nat, SharedBuffer>, blocks: map<nat, Block>, w: World)

  const NOTHING: Registry := Registry({}, map[], map[], EMPTY)

  ghost function NameOf(s: Block?): Option<nat> {
    if s == null then None else Some(s.name)
  }

  ghost function ViewAt(a: SharedBuffer): View
    reads a
  {
    View(NameOf(a.storage), a.offset, a.size)
  }

  ghost function StorageAt(s: Block): Storage
    reads s, s.bytes
  {
    Storage(s.bytes[..], s.refs, s.hasRelease)
  }

  /** A pointer to a block that is alive is to the block of that name. */
  ghost predicate Known(g: Registry, s: Block?) {
    s != null ==> s.name < g.w.next && (s.name in g.blocks ==> g.blocks[s.name] == s)
  }

  ghost predicate Alive(g: Registry, s: Block?) {
    s != null ==> s.name in g.blocks && g.blocks[s.name] == s
  }

  ghost predicate Has(g: Registry, a: SharedBuffer) {
    a.name in g.views && g.views[a.name] == a
  }

  /** The live view objects show what the world says. */
  ghost predicate ViewsMatch(g: Registry)
    reads g.repr
  {
    && (forall v :: v in g.views <==> v in g.w.views)
    && (forall v :: v in g.views ==>
          && g.views[v] in g.repr && g.views[v].name == v
          && g.w.views[v] == ViewAt(g.views[v]) && Known(g, g.views[v].storage))
  }

  /** The live blocks have the counts and the bytes the world says. */
  ghost predicate BlocksMatch(g: Registry)
    reads g.repr
  {
    && (forall s :: s in g.blocks <==> s in g.w.storages)
    && (forall s :: s in g.blocks ==>
          && g.blocks[s] in g.repr && g.blocks[s].bytes in g.repr && g.blocks[s].name == s < g.w.next
          && g.w.storages[s] == StorageAt(g.blocks[s]))
  }

  ghost predicate Matches(g: Registry)
    reads g.repr
  {
    ViewsMatch(g) && BlocksMatch(g)
  }

  ghost predicate Valid(g: Registry)
    reads g.repr
  {
    Matches(g) && Inv(g.w)
  }

  /** A program starts with no views. */
  lemma NothingIsValid()
    ensures Valid(NOTHING)
  {
  }

  /** The storage of a view is alive. */
  lemma StorageAlive(g: Registry, a: SharedBuffer)
    requires Valid(g) && Has(g, a)
    ensures Alive(g, a.storage)
  {
    assert Fits(g.w, g.w.views[a.name]);
  }

  // ---- acquire, release_ref, new ---------------------------------------------------------

  ghost function Counted(w: World, s: nat, refs: int): World
    requires s in w.storages
  {
    w.(storages := w.storages[s := w.storages[s].(refs := refs)])
  }

  method SetCount(s: Block, refs: int, ghost g: Registry) returns (ghost g': Registry)
    requires Matches(g) && Alive(g, s)
    modifies s
    ensures s.refs == refs && Matches(g') && g' == g.(w := Counted(g.w, s.name, refs))
  {
    s.refs := refs;
    g' := g.(w := Counted(g.w, s.name, refs));
  }

  method AcquireRef(s: Block?, ghost g: Registry) returns (ghost g': Registry)
    requires Matches(g) && Alive(g, s)
    modifies s
    ensures Matches(g') && g' == g.(w := Acquire(g.w, NameOf(s)))
  {
    g' := g;
    if s != null {
      g' := SetCount(s, s.refs + 1, g);
    }
  }

  ghost function Deleted(w: World, s: nat): World
    requires s in w.storages
  {
    w.(storages := w.storages - {s}, released := if w.storages[s].hasRelease then w.released + [s] else w.released)
  }

  /** release_ref in two steps: the count goes down, and at zero the storage goes. */
  lemma ReleaseInTwo(w: World, s: nat)
    requires s in w.storages
    ensures var w' := Counted(w, s, w.storages[s].refs - 1);
            Release(w, Some(s)) == if w'.storages[s].refs == 0 then Deleted(w', s) else w'
  {
    assert w.storages[s := w.storages[s].(refs := w.storages[s].refs - 1)] - {s} == w.storages - {s};
  }

  lemma DeletedMatches(g: Registry, s: nat)
    requires Matches(g) && s in g.blocks
    ensures Matches(g.(blocks := g.blocks - {s}, w := Deleted(g.w, s)))
  {
  }

  /** The last reference deletes the block, whose destructor runs the release function. */
  method ReleaseRef(s: Block?, ghost g: Registry) returns (ghost g': Registry)
    requires Matches(g) && Alive(g, s)
    modifies s
    ensures Matches(g') && g' == g.(blocks := g'.blocks, w := Release(g.w, NameOf(s)))
  {
    g' := g;
    if s != null {
      ReleaseInTwo(g.w, s.name);
      g' := SetCount(s, s.refs - 1, g);
      if s.refs == 0 {
        DeletedMatches(g', s.name);
        g' := g'.(blocks := g.blocks - {s.name}, w := Deleted(g'.w, s.name));
      }
    }
  }

  lemma CreatedMatches(g: Registry, s: Block)
    requires Matches(g) && s.name == g.w.next && s.refs == 1
    ensures Matches(g.(repr := g.repr + {s, s.bytes}, blocks := g.blocks[s.name := s],
                       w := Created(g.w, s.bytes[..], s.hasRelease)))
  {
  }

  method NewBlock(bytes: array<Byte>, hasRelease: bool, ghost g: Registry) returns (s: Block, ghost g': Registry)
    requires Matches(g)
    ensures fresh(s) && s.name == g.w.next && s.bytes == bytes && s.hasRelease == hasRelease && Matches(g')
    ensures g' == g.(repr := g.repr + {s, bytes}, blocks := g.blocks[s.name := s],
                     w := Created(g.w, bytes[..], hasRelease))
  {
    s := new Block(bytes, hasRelease, g.w.next);
    CreatedMatches(g, s);
    g' := g.(repr := g.repr + {s, bytes}, blocks := g.blocks[s.name := s], w := Created(g.w, bytes[..], hasRelease));
  }

  lemma ViewedMatches(g: Registry, a: SharedBuffer)
    requires Matches(g) && Known(g, a.storage)
    ensures Matches(g.(repr := g.repr + {a}, views := g.views[a.name := a], w := SetView(g.w, a.name, ViewAt(a))))
  {
  }

  method NewView(s: Block?, offset: nat, size: nat, ghost v: nat, ghost g: Registry)
    returns (a: SharedBuffer, ghost g': Registry)
    requires Matches(g) && v !in g.views && Known(g, s)
    ensures fresh(a) && a.name == v && Matches(g')
    ensures a.storage == s && a.offset == offset && a.size == size
    ensures g' == g.(repr := g.repr + {a}, views := g.views[v := a],
                     w := SetView(g.w, v, View(NameOf(s), offset, size)))
  {
    a := new SharedBuffer(s, offset, size, v);
    ViewedMatches(g, a);
    g' := g.(repr := g.repr + {a}, views := g.views[v := a], w := SetView(g.w, v, View(NameOf(s), offset, size)));
  }

  lemma SubviewKeeps(w: World, v: nat, o: nat, offset: nat, n: nat)
    requires Inv(w) && Enabled(w, Subview(v, o, offset, n))
    ensures Inv(Apply(w, Subview(v, o, offset, n)))
    ensures var x := Sub(w.views[o], offset, n);
            LiveStorage(w, x.storage) && LiveStorage(w, StorageOf(w, v))
            && Apply(w, Subview(v, o, offset, n)) == Retarget(w, v, x)
  {
    ApplyKeeps(w, Subview(v, o, offset, n));
  }

  lemma ClearKeeps(w: World, v: nat)
    requires Inv(w) && v in w.views
    ensures Inv(Apply(w, Clear(v))) && LiveStorage(w, StorageOf(w, v))
    ensures Apply(w, Clear(v)) == Retarget(w, v, NO_VIEW)
  {
    RetargetKeeps(w, v, NO_VIEW);
  }

  lemma ForgottenMatches(g: Registry, v: nat)
    requires Matches(g)
    ensures Matches(g.(views := g.views - {v}, w := g.w.(views := g.w.views - {v})))
  {
  }

  class SharedBuffer {
    ghost const name: nat
    var storage: Block?
    var offset: nat
    var size: nat

    constructor (storage: Block?, offset: nat, size: nat, ghost name: nat)
      ensures this.storage == storage && this.offset == offset && this.size == size && this.name == name
    {
      this.storage, this.offset, this.size, this.name := storage, offset, size, name;
    }

    function Capacity(): int
      reads this
    {
      if storage == null then 0 else storage.bytes.Length - offset
    }

    method Set(storage: Block?, offset: nat, size: nat)
      modifies this
      ensures this.storage == storage && this.offset == offset && this.size == size
    {
      this.storage, this.offset, this.size := storage, offset, size;
    }

    method Assign(s: Block?, offset: nat, size: nat, ghost g: Registry) returns (ghost g': Registry)
      requires Matches(g) && Has(g, this) && Known(g, s)
      modifies this
      ensures storage == s && this.offset == offset && this.size == size
      ensures Matches(g') && g' == g.(w := SetView(g.w, name, View(NameOf(s), offset, size)))
    {
      Set(s, offset, size);
      g' := g.(w := SetView(g.w, name, View(NameOf(s), offset, size)));
    }

    /** The view takes over a reference and drops the one it had. */
    method Replace(s: Block?, offset: nat, size: nat, ghost g: Registry) returns (ghost g': Registry)
      requires Matches(g) && Has(g, this) && Alive(g, storage) && Known(g, s)
      modifies this, storage
      ensures storage == s && this.offset == offset && this.size == size
      ensures Matches(g') && g' == g.(blocks := g'.blocks, w := g'.w)
      ensures g'.w == Release(SetView(g.w, name, View(NameOf(s), offset, size)), StorageOf(g.w, name))
    {
      var held := storage;
      g' := Assign(s, offset, size, g);
      g' := ReleaseRef(held, g');
    }

    /** The view takes a new reference and drops the one it had. */
    method Redirect(s: Block?, offset: nat, size: nat, ghost g: Registry) returns (ghost g': Registry)
      requires Matches(g) && Has(g, this) && Alive(g, storage) && Alive(g, s)
      modifies this, storage, s
      ensures storage == s && this.offset == offset && this.size == size
      ensures Matches(g') && g' == g.(blocks := g'.blocks, w := Retarget(g.w, name, View(NameOf(s), offset, size)))
    {
      g' := AcquireRef(s, g);
      g' := Replace(s, offset, size, g');
    }

    // ---- Assignment and destruction --------------------------------------------------------

    method CopyAssign(other: SharedBuffer, ghost g: Registry) returns (ghost g': Registry)
      requires Valid(g) && Has(g, this) && Has(g, other)
      modifies this, storage, other.storage
      ensures Valid(g') && g'.views == g.views && g'.w == Apply(g.w, AssignCopy(name, other.name))
      ensures storage == old(other.storage) && offset == old(other.offset) && size == old(other.size)
    {
      ApplyKeeps(g.w, AssignCopy(name, other.name));
      StorageAlive(g, this);
      StorageAlive(g, other);
      g' := g;
      if this != other {
        g' := Redirect(other.storage, other.offset, other.size, g);
      }
    }

    method MoveAssign(other: SharedBuffer, ghost g: Registry) returns (ghost g': Registry)
      requires Valid(g) && Has(g, this) && Has(g, other)
      modifies this, storage, other
      ensures Valid(g') && g'.views == g.views && g'.w == Apply(g.w, AssignMove(name, other.name))
      ensures storage == old(other.storage) && offset == old(other.offset) && size == old(other.size)
      ensures this != other ==> other.storage == null && other.offset == other.size == 0
    {
      ApplyKeeps(g.w, AssignMove(name, other.name));
      StorageAlive(g, this);
      g' := g;
      if this != other {
        g' := TakeFrom(other, g);
      }
    }

    method TakeFrom(other: SharedBuffer, ghost g: Registry) returns (ghost g': Registry)
      requires Matches(g) && Has(g, this) && Has(g, other) && this != other && Alive(g, storage)
      modifies this, storage, other
      ensures storage == old(other.storage) && offset == old(other.offset) && size == old(other.size)
      ensures other.storage == null && other.offset == other.size == 0
      ensures Matches(g') && name != other.name
      ensures g' == g.(blocks := g'.blocks, w := MoveInto(g.w, name, other.name))
    {
      var held := storage;
      g' := Assign(other.storage, other.offset, other.size, g);
      g' := other.Assign(null, 0, 0, g');
      g' := ReleaseRef(held, g');
    }

    method Clear(ghost g: Registry) returns (ghost g': Registry)
      requires Valid(g) && Has(g, this)
      modifies this, storage
      ensures Valid(g') && g'.views == g.views && g'.w == Apply(g.w, Op.Clear(name))
      ensures storage == null && offset == size == 0
    {
      ClearKeeps(g.w, name);
      StorageAlive(g, this);
      g' := Redirect(null, 0, 0, g);
    }

    method Destruct(ghost g: Registry) returns (ghost g': Registry)
      requires Valid(g) && Has(g, this)
      modifies this, storage
      ensures Valid(g') && g'.views == g.views - {name} && g'.w == Apply(g.w, Destroy(name))
    {
      ApplyKeeps(g.w, Destroy(name));
      StorageAlive(g, this);
      g' := Retire(g);
    }

    method Retire(ghost g: Registry) returns (ghost g': Registry)
      requires Matches(g) && Has(g, this) && Alive(g, storage)
      modifies this, storage
      ensures Matches(g') && g'.views == g.views - {name} && g'.w == Destroyed(g.w, name)
    {
      g' := Redirect(null, 0, 0, g);
      ForgottenMatches(g', name);
      g' := g'.(views := g.views - {name}, w := g'.w.(views := g'.w.views - {name}));
    }

    // ---- reserve and resize ----------------------------------------------------------------

    /** `memory` is what the allocator returns. */
    method Reserve(memory: seq<Byte>, ghost g: Registry) returns (ghost g': Registry)
      requires Valid(g) && Has(g, this)
      modifies this, storage
      ensures Valid(g') && g'.views == g.views && g'.w == Reserved(g.w, name, memory)
      ensures offset == old(offset) && size == old(size)
      ensures old(offset) == 0 ==> Capacity() >= |memory|
      ensures if old(offset) != 0 || |memory| <= old(Capacity()) then storage == old(storage)
              else storage != null && fresh(storage) && fresh(storage.bytes)
    {
      ReservedKeeps(g.w, name, memory);
      StorageAlive(g, this);
      g' := GrowTo(memory, g);
    }

    method Resize(memory: seq<Byte>, ghost g: Registry) returns (ghost g': Registry)
      requires Valid(g) && Has(g, this)
      modifies this, storage
      ensures Valid(g') && g'.views == g.views && g'.w == Resized(g.w, name, memory)
      ensures offset == old(offset) && size == if old(offset) == 0 then |memory| else old(size)
      ensures if old(offset) != 0 || |memory| <= old(Capacity()) then storage == old(storage)
              else storage != null && fresh(storage) && fresh(storage.bytes)
    {
      ResizedKeeps(g.w, name, memory);
      StorageAlive(g, this);
      g' := SetSize(memory, g);
    }

    method SetSize(memory: seq<Byte>, ghost g: Registry) returns (ghost g': Registry)
      requires Matches(g) && Has(g, this) && Alive(g, storage) && Fits(g.w, g.w.views[name])
      modifies this, storage
      ensures Matches(g') && g'.views == g.views && g'.w == Resized(g.w, name, memory)
      ensures offset == old(offset) && size == if old(offset) == 0 then |memory| else old(size)
      ensures if old(offset) != 0 || |memory| <= old(Capacity()) then storage == old(storage)
              else storage != null && fresh(storage) && fresh(storage.bytes)
    {
      g' := g;
      if offset != 0 {
        return;
      }
      if |memory| > Capacity() {
        g' := GrowTo(memory, g);
      }
      g' := Assign(storage, offset, |memory|, g');
    }

    /** What the view shows is in the array. */
    lemma BytesShown(g: Registry)
      requires Matches(g) && Has(g, this) && Alive(g, storage) && Fits(g.w, g.w.views[name]) && offset == 0
      ensures BufferRuns.Capacity(g.w, name) == Capacity()
      ensures Bytes(g.w, name) == if storage == null then [] else storage.bytes[..size]
    {
    }

    /** Growing moves the bytes to a new storage, which replaces the old one. */
    method GrowTo(memory: seq<Byte>, ghost g: Registry) returns (ghost g': Registry)
      requires Matches(g) && Has(g, this) && Alive(g, storage) && Fits(g.w, g.w.views[name])
      modifies this, storage
      ensures Matches(g') && g'.views == g.views && g'.w == Reserved(g.w, name, memory)
      ensures offset == old(offset) && size == old(size)
      ensures old(offset) == 0 ==> Capacity() >= |memory|
      ensures if old(offset) != 0 || |memory| <= old(Capacity()) then storage == old(storage)
              else storage != null && fresh(storage) && fresh(storage.bytes)
    {
      g' := g;
      if offset != 0 || |memory| <= Capacity() {
        return;
      }
      BytesShown(g);
      var bytes := CopyOut(storage, size, memory);
      var s;
      s, g' := NewBlock(bytes, true, g);
      g' := Replace(s, 0, size, g');
    }

    // ---- subview ---------------------------------------------------------------------------

    method Subview(offset: nat, n: nat, ghost v: nat, ghost g: Registry) returns (a: SharedBuffer, ghost g': Registry)
      requires Valid(g) && Has(g, this) && v !in g.views
      modifies storage
      ensures Valid(g') && fresh(a) && g'.views == g.views[v := a]
      ensures g'.w == Apply(g.w, Op.Subview(v, name, offset, n))
      ensures if storage != null && offset + n <= size
              then a.storage == storage && a.offset == this.offset + offset && a.size == n
              else a.storage == null && a.offset == a.size == 0
    {
      SubviewKeeps(g.w, v, name, offset, n);
      StorageAlive(g, this);
      a, g' := Window(offset, n, v, g);
    }

    method Window(offset: nat, n: nat, ghost v: nat, ghost g: Registry) returns (a: SharedBuffer, ghost g': Registry)
      requires Matches(g) && Has(g, this) && Alive(g, storage) && v !in g.views
      modifies storage
      ensures Matches(g') && fresh(a) && g'.views == g.views[v := a]
      ensures if storage != null && offset + n <= size
              then a.storage == storage && a.offset == this.offset + offset && a.size == n
              else a.storage == null && a.offset == a.size == 0
      ensures var x := Sub(g.w.views[name], offset, n);
              LiveStorage(g.w, x.storage) && g'.w == Retarget(g.w, v, x)
    {
      if storage == null || offset > size || n > size - offset {
        a, g' := Share(null, 0, 0, v, g);
      } else {
        a, g' := Share(storage, this.offset + offset, n, v, g);
      }
    }
  }

  // ---- Constructors and factories ------------------------------------------------------------

  /** A new view with a reference of its own. */
  method Share(s: Block?, offset: nat, size: nat, ghost v: nat, ghost g: Registry)
    returns (a: SharedBuffer, ghost g': Registry)
    requires Matches(g) && v !in g.views && Alive(g, s)
    modifies s
    ensures Matches(g') && fresh(a) && g'.views == g.views[v := a]
    ensures a.storage == s && a.offset == offset && a.size == size
    ensures g'.w == Retarget(g.w, v, View(NameOf(s), offset, size))
  {
    g' := AcquireRef(s, g);
    a, g' := NewView(s, offset, size, v, g');
  }

  method CopyConstruct(other: SharedBuffer, ghost v: nat, ghost g: Registry)
    returns (a: SharedBuffer, ghost g': Registry)
    requires Valid(g) && Has(g, other) && v !in g.views
    modifies other.storage
    ensures Valid(g') && fresh(a) && g'.views == g.views[v := a] && g'.w == Apply(g.w, Copy(v, other.name))
    ensures a.storage == other.storage && a.offset == other.offset && a.size == other.size
  {
    ApplyKeeps(g.w, Copy(v, other.name));
    StorageAlive(g, other);
    a, g' := Share(other.storage, other.offset, other.size, v, g);
  }

  method MoveConstruct(other: SharedBuffer, ghost v: nat, ghost g: Registry)
    returns (a: SharedBuffer, ghost g': Registry)
    requires Valid(g) && Has(g, other) && v !in g.views
    modifies other
    ensures Valid(g') && fresh(a) && g'.views == g.views[v := a] && g'.w == Apply(g.w, Move(v, other.name))
    ensures a.storage == old(other.storage) && a.offset == old(other.offset) && a.size == old(other.size)
    ensures other.storage == null && other.offset == other.size == 0
  {
    ApplyKeeps(g.w, Move(v, other.name));
    a, g' := TakeAway(other, v, g);
  }

  method TakeAway(other: SharedBuffer, ghost v: nat, ghost g: Registry) returns (a: SharedBuffer, ghost g': Registry)
    requires Matches(g) && Has(g, other) && v !in g.views
    modifies other
    ensures Matches(g') && fresh(a) && g'.views == g.views[v := a] && g'.w == MoveInto(g.w, v, other.name)
    ensures a.storage == old(other.storage) && a.offset == old(other.offset) && a.size == old(other.size)
    ensures other.storage == null && other.offset == other.size == 0
  {
    a, g' := NewView(other.storage, other.offset, other.size, v, g);
    g' := other.Assign(null, 0, 0, g');
  }

  /** A new view on a new storage. */
  method Plant(bytes: array<Byte>, size: nat, hasRelease: bool, ghost v: nat, ghost g: Registry)
    returns (a: SharedBuffer, ghost g': Registry)
    requires Matches(g) && v !in g.views
    ensures Matches(g') && fresh(a) && g'.views == g.views[v := a]
    ensures g'.w == Install(g.w, v, bytes[..], size, hasRelease)
    ensures a.storage != null && a.storage.bytes == bytes && a.storage.hasRelease == hasRelease
    ensures a.offset == 0 && a.size == size
  {
    var s;
    s, g' := NewBlock(bytes, hasRelease, g);
    a, g' := NewView(s, 0, size, v, g');
  }

  method AllocateView(memory: seq<Byte>, ghost v: nat, ghost g: Registry) returns (a: SharedBuffer, ghost g': Registry)
    requires Valid(g) && v !in g.views
    ensures Valid(g') && fresh(a) && g'.views == g.views[v := a] && g'.w == Apply(g.w, Allocate(v, memory))
  {
    ApplyKeeps(g.w, Allocate(v, memory));
    if |memory| == 0 {
      a, g' := NewView(null, 0, 0, v, g);
    } else {
      var bytes := NewArray(memory);
      a, g' := Plant(bytes, 0, true, v, g);
    }
  }

  ghost function BytesOf(data: array?<Byte>): Option<seq<Byte>>
    reads data
  {
    if data == null then None else Some(data[..])
  }

  /** The view owns the block and shows its first `size` bytes, or is empty. */
  ghost predicate Took(a: SharedBuffer, data: array?<Byte>, size: nat, hasRelease: bool)
    reads a
  {
    if data != null && data.Length > 0 && size <= data.Length
    then a.storage != null && a.storage.bytes == data && a.storage.hasRelease == hasRelease
         && a.offset == 0 && a.size == size
    else a.storage == null && a.offset == a.size == 0
  }

  /** A block that is not taken is released at once. */
  lemma RejectedMatches(g: Registry, a: SharedBuffer, hasRelease: bool)
    requires Matches(g) && a.name !in g.views && ViewAt(a) == NO_VIEW
    ensures Matches(g.(repr := g.repr + {a}, views := g.views[a.name := a], w := Rejected(g.w, a.name, hasRelease)))
  {
    ViewedMatches(g, a);
  }

  method AdoptView(data: array?<Byte>, size: nat, hasRelease: bool, ghost v: nat, ghost g: Registry)
    returns (a: SharedBuffer, ghost g': Registry)
    requires Valid(g) && v !in g.views
    ensures Valid(g') && fresh(a) && g'.views == g.views[v := a]
    ensures g'.w == Apply(g.w, Adopt(v, BytesOf(data), size, hasRelease))
    ensures Took(a, data, size, hasRelease)
  {
    ApplyKeeps(g.w, Adopt(v, BytesOf(data), size, hasRelease));
    a, g' := TakeOver(data, size, hasRelease, v, g);
  }

  method TakeOver(data: array?<Byte>, size: nat, hasRelease: bool, ghost v: nat, ghost g: Registry)
    returns (a: SharedBuffer, ghost g': Registry)
    requires Matches(g) && v !in g.views
    ensures Matches(g') && fresh(a) && g'.views == g.views[v := a]
    ensures g'.w == Adopted(g.w, v, BytesOf(data), size, hasRelease)
    ensures Took(a, data, size, hasRelease)
  {
    if data != null && data.Length > 0 && size <= data.Length {
      a, g' := Plant(data, size, hasRelease, v, g);
    } else {
      a, g' := NewView(null, 0, 0, v, g);
      if data != null {
        RejectedMatches(g, a, hasRelease);
        g' := g'.(w := Rejected(g.w, v, hasRelease));
      }
    }
  }

  method NewArray(memory: seq<Byte>) returns (bytes: array<Byte>)
    ensures fresh(bytes) && bytes[..] == memory
  {
    bytes := new Byte[|memory|](i requires 0 <= i < |memory| => memory[i]);
  }

  /** The first `size` bytes of the storage, copied into new memory. */
  method CopyOut(s: Block?, size: nat, memory: seq<Byte>) returns (bytes: array<Byte>)
    requires size <= |memory| && (if s == null then size == 0 else size <= s.bytes.Length)
    ensures fresh(bytes) && bytes[..] == (if s == null then [] else s.bytes[..size]) + memory[size..]
  {
    bytes := NewArray(memory);
    assert forall j :: 0 <= j < |memory| ==> bytes[j] == bytes[..][j];
    if s != null {
      for i := 0 to size
        modifies bytes
        invariant forall j :: 0 <= j < i ==> bytes[j] == s.bytes[j]
        invariant forall j :: i <= j < |memory| ==> bytes[j] == memory[j]
      {
        bytes[i] := s.bytes[i];
      }
    }
  }
}
