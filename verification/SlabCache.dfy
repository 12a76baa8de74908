/** The slab cache of `memory/cache.cc`. */
module SlabCache {
  import BuddyRuns
  import BuddySpec
  import opened Numeric
  import opened PhysicalMemory
  import opened Sequences
  import opened SlabLayout
  import opened Wrappers

  class Slab {
    const cache: Cache
    const memory: Contiguous
    var freelist: seq<nat>
    var count: nat

    /** Puts every object on the free list, in order of address. */
    constructor (cache: Cache, memory: Contiguous, layout: Layout)
      requires LayoutOk(layout) && memory.Run? && memory.Size() == layout.slabSize
      ensures this.cache == cache && this.memory == memory && count == 0
      ensures Ok(layout) && freelist == Grid(memory.FromAddress(), layout.objectSize, layout.objects)
    {
      hide Contiguous.FromAddress, Contiguous.Size, Grid, LayoutOk, NoDuplicates, Object, OnGrid;
      this.cache := cache;
      this.memory := memory;
      count := 0;
      var from := memory.FromAddress();
      var to := from + layout.objectSize * layout.objects;
      var list: seq<nat> := [];
      var addr := from;
      LayoutParts(layout);
      GridStart(from, layout.objectSize);
      while addr < to
        invariant |list| <= layout.objects && addr == Object(from, layout.objectSize, |list|)
        invariant list == Grid(from, layout.objectSize, |list|)
        decreases layout.objects - |list|
      {
        GridNext(from, layout.objectSize, |list|, layout.objects);
        list := list + [addr];
        addr := addr + layout.objectSize;
      }
      GridNext(from, layout.objectSize, |list|, layout.objects);
      freelist := list;
      GridFacts(from, layout);
    }

    ghost predicate Ok(layout: Layout)
      reads this
    {
      && memory.Run? && memory.Size() == layout.slabSize
      && NoDuplicates<nat>(freelist)
      && (forall a: nat :: a in freelist ==> OnGrid(memory.FromAddress(), layout, a))
      && count + |freelist| == layout.objects
    }

    /** The object is handed out. */
    ghost predicate Holds(layout: Layout, a: nat)
      reads this
    {
      OnGrid(memory.FromAddress(), layout, a) && a !in freelist
    }

    method Allocate(ghost layout: Layout) returns (r: Option<nat>)
      requires Ok(layout)
      modifies this
      ensures Ok(layout)
      ensures r == None <==> old(count) == layout.objects
      ensures r == None ==> unchanged(this)
      ensures r.Some? ==> freelist == old(freelist)[1..] && [r.value] + freelist == old(freelist)
      ensures r.Some? ==> count == old(count) + 1 && !old(Holds(layout, r.value))
      ensures r.Some? ==> forall a: nat :: Holds(layout, a) <==> old(Holds(layout, a)) || a == r.value
    {
      if freelist == [] {
        return None;
      }
      var storage := freelist[0];
      assert freelist == [storage] + freelist[1..];
      freelist := freelist[1..];
      count := count + 1;
      return Some(storage);
    }

    /** An address outside the slab is refused. Any other is taken back, but the slab stays in order
      * exactly if it is an object that was handed out. */
    method Free(ghost layout: Layout, ptr: nat) returns (ok: bool)
      requires Ok(layout) && LayoutOk(layout) && count > 0
      modifies this
      ensures ok <==> memory.FromAddress() <= ptr < memory.ToAddress()
      ensures !ok ==> unchanged(this)
      ensures ok ==> count == old(count) - 1 && freelist == [ptr] + old(freelist)
      ensures Ok(layout) <==> !ok || old(Holds(layout, ptr))
      ensures old(Holds(layout, ptr)) ==> ok && forall a: nat :: Holds(layout, a) <==> old(Holds(layout, a)) && a != ptr
    {
      hide LayoutOk, Contiguous.FromAddress, Contiguous.ToAddress, Contiguous.Size, OnGrid;
      if Holds(layout, ptr) {
        GridInside(this, layout, ptr);
      }
      if ptr < memory.FromAddress() || ptr >= memory.ToAddress() {
        return false;
      }
      assert [ptr] + freelist != [] && ([ptr] + freelist)[0] == ptr && ([ptr] + freelist)[1..] == freelist;
      freelist := [ptr] + freelist;
      count := count - 1;
      return true;
    }

    /** The counter is the number of objects handed out. */
    lemma CountsObjects(layout: Layout) returns (held: set<nat>)
      requires Ok(layout) && LayoutOk(layout)
      ensures |held| == count && forall a: nat :: a in held <==> Holds(layout, a)
    {
      var g := Grid(memory.FromAddress(), layout.objectSize, layout.objects);
      GridFacts(memory.FromAddress(), layout);
      SetSize(g);
      SetSize(freelist);
      var all, listed := SetOf(g), SetOf(freelist);
      assert listed <= all;
      held := all - listed;
    }

    lemma HoldsSome(layout: Layout, a: nat)
      requires Ok(layout) && LayoutOk(layout) && Holds(layout, a)
      ensures count > 0
    {
      var held := CountsObjects(layout);
      assert a in held;
    }
  }

  function SetOf(q: seq<nat>): set<nat> {
    set a | a in q
  }

  lemma {:induction false} SetSize(q: seq<nat>)
    requires NoDuplicates<nat>(q)
    ensures |SetOf(q)| == |q|
  {
    if q == [] {
      assert SetOf(q) == {};
    } else {
      SetSize(q[1..]);
      assert q[0] !in q[1..];
      assert SetOf(q) == {q[0]} + SetOf(q[1..]);
    }
  }

  // ----- the cache

  /** What `Cache::Free` returns, if it does. */
  datatype Freeing = Freed | Refused | Panicked

  /** The memory in which the control blocks of slabs live, by address. */
  class ControlBlocks {
    var at: map<nat, Slab>

    constructor ()
      ensures at == map[]
    {
      at := map[];
    }
  }

  ghost predicate Separated(m: Contiguous, n: Contiguous) {
    m.ToAddress() <= n.FromAddress() || n.ToAddress() <= m.FromAddress()
  }

  /** Two slabs do not share memory. */
  ghost predicate Apart(s: Slab, t: Slab) {
    Separated(s.memory, t.memory)
  }

  /** A list of different slabs of the cache with counts in the range. */
  ghost predicate Shelf(cache: Cache, q: seq<Slab>, low: nat, high: nat)
    reads q
  {
    NoDuplicates<Slab>(q) && forall s :: s in q ==> s.Ok(cache.layout) && s.cache == cache && low <= s.count <= high
  }

  /** Every slab is on the list its count demands, once, and so on no other. */
  ghost predicate Filed(cache: Cache, free: seq<Slab>, partial: seq<Slab>, full: seq<Slab>)
    requires LayoutOk(cache.layout)
    reads free, partial, full
  {
    && Shelf(cache, free, 0, 0) && Shelf(cache, partial, 1, cache.layout.objects - 1)
    && Shelf(cache, full, cache.layout.objects, cache.layout.objects)
  }

  lemma ShelfPop(cache: Cache, q: seq<Slab>, low: nat, high: nat)
    requires Shelf(cache, q, low, high) && q != []
    ensures Shelf(cache, q[1..], low, high) && q[0] !in q[1..] && q == [q[0]] + q[1..]
    ensures q[0].Ok(cache.layout) && q[0].cache == cache && low <= q[0].count <= high
  {
  }

  ghost predicate AllOk(cache: Cache, slabs: seq<Slab>)
    reads slabs
  {
    forall s :: s in slabs ==> s.Ok(cache.layout) && s.cache == cache
  }

  lemma FiledOk(cache: Cache, free: seq<Slab>, partial: seq<Slab>, full: seq<Slab>)
    requires LayoutOk(cache.layout) && Filed(cache, free, partial, full)
    ensures cache.layout.objects >= 32 && AllOk(cache, All(free, partial, full))
  {
  }

  /** Different lists have no slab in common. */
  lemma ShelvesApart(cache: Cache, q: seq<Slab>, low: nat, high: nat, r: seq<Slab>, low': nat, high': nat, s: Slab)
    requires Shelf(cache, q, low, high) && Shelf(cache, r, low', high') && s in q && (high < low' || high' < low)
    ensures s !in r
  {
  }

  lemma ShelfPush(cache: Cache, q: seq<Slab>, low: nat, high: nat, s: Slab)
    requires Shelf(cache, q, low, high) && s !in q
    requires s.Ok(cache.layout) && s.cache == cache && low <= s.count <= high
    ensures Shelf(cache, [s] + q, low, high)
  {
  }

  lemma ShelfWithout(cache: Cache, q: seq<Slab>, low: nat, high: nat, s: Slab)
    requires Shelf(cache, q, low, high) && s in q
    ensures Shelf(cache, Without<Slab>(q, s), low, high) && |Without<Slab>(q, s)| == |q| - 1
    ensures forall t :: t in Without<Slab>(q, s) ==> t in q && t != s
    ensures forall t :: t in q ==> t in [s] + Without<Slab>(q, s)
  {
    WithoutFacts<Slab>(q, s);
    WithoutLength<Slab>(q, s);
  }

  /** The slab's memory is handed out by the page allocator and aligned to its size, and its
    * control block is where `Find` looks for it. */
  ghost predicate PlacedAt(cache: Cache, at: map<nat, Slab>, s: Slab)
    requires LayoutOk(cache.layout)
    reads cache.ram.zones
  {
    && cache.ram.Out(s.memory) && s.memory.FromAddress() % cache.layout.slabSize == 0
    && cache.Control(s) in at && at[cache.Control(s)] == s
  }

  /** Control blocks in the memory stay where they are. */
  ghost predicate Kept(at: map<nat, Slab>, at': map<nat, Slab>, m: Contiguous) {
    forall a :: a in at && m.FromAddress() <= a < m.ToAddress() ==> a in at' && at'[a] == at[a]
  }

  ghost predicate AllApart(slabs: seq<Slab>) {
    forall s, t :: s in slabs && t in slabs && s != t ==> Apart(s, t)
  }

  lemma KeptSelf(at: map<nat, Slab>)
    ensures forall m :: Kept(at, at, m)
  {
  }

  function Erased(at: map<nat, Slab>, control: nat): map<nat, Slab> {
    map a | a in at && a != control :: at[a]
  }

  lemma KeptLess(at: map<nat, Slab>, memory: Contiguous, control: nat)
    requires memory.FromAddress() <= control < memory.ToAddress()
    ensures forall m :: Separated(m, memory) ==> Kept(at, Erased(at, control), m)
  {
  }

  lemma KeptOn(at: map<nat, Slab>, at': map<nat, Slab>, at'': map<nat, Slab>)
    ensures forall m :: Kept(at, at', m) && Kept(at', at'', m) ==> Kept(at, at'', m)
  {
  }

  /** No slab of the list is in this memory. */
  ghost predicate NoSlabIn(q: seq<Slab>, m: Contiguous) {
    forall s :: s in q ==> s.memory != m
  }

  lemma NoSlabInRest(q: seq<Slab>, m: Contiguous)
    requires q != [] && NoSlabIn(q, m)
    ensures q[0].memory != m && NoSlabIn(q[1..], m)
  {
  }

  lemma KeptMore(at: map<nat, Slab>, memory: Contiguous, control: nat, slab: Slab)
    requires memory.FromAddress() <= control < memory.ToAddress()
    ensures forall m :: Separated(m, memory) ==> Kept(at, at[control := slab], m)
  {
  }

  ghost predicate Placed(cache: Cache, at: map<nat, Slab>, slabs: seq<Slab>)
    requires LayoutOk(cache.layout)
    reads cache.ram.zones
  {
    && (forall s :: s in slabs ==> PlacedAt(cache, at, s))
    && (forall s, t :: s in slabs && t in slabs && s != t ==> Apart(s, t))
  }

  /** The objects are those that the slabs have handed out. */
  ghost predicate Holding(layout: Layout, slabs: seq<Slab>, objects: set<nat>)
    reads slabs
  {
    && (forall s, a: nat :: s in slabs && s.Holds(layout, a) ==> a in objects)
    && (forall a :: a in objects ==> exists s :: s in slabs && s.Holds(layout, a))
  }

  ghost function All(free: seq<Slab>, partial: seq<Slab>, full: seq<Slab>): seq<Slab> {
    free + partial + full
  }

  ghost predicate SameSlabs(slabs: seq<Slab>, others: seq<Slab>) {
    (forall s :: s in slabs ==> s in others) && forall s :: s in others ==> s in slabs
  }

  lemma SameAll(cache: Cache, slabs: seq<Slab>, others: seq<Slab>, objects: set<nat>)
    requires SameSlabs(slabs, others) && LayoutOk(cache.layout)
    requires AllOk(cache, slabs) && Holding(cache.layout, slabs, objects) && Placed(cache, cache.blocks.at, slabs)
    ensures AllOk(cache, others) && Holding(cache.layout, others, objects) && Placed(cache, cache.blocks.at, others)
  {
  }

  lemma OnAList(slab: Slab, free: seq<Slab>, partial: seq<Slab>, full: seq<Slab>)
    requires slab in free || slab in partial || slab in full
    ensures slab in All(free, partial, full)
  {
  }

  /** The first slab moves to the next list. */
  lemma MovedOn(free: seq<Slab>, partial: seq<Slab>, full: seq<Slab>)
    ensures free != [] ==>
      SameSlabs(All(free, partial, full), All(free[1..], [free[0]] + partial, full))
    ensures partial != [] ==>
      SameSlabs(All(free, partial, full), All(free, partial[1..], [partial[0]] + full))
    ensures free != [] ==> |All(free, partial, full)| == |All(free[1..], [free[0]] + partial, full)|
    ensures partial != [] ==> |All(free, partial, full)| == |All(free, partial[1..], [partial[0]] + full)|
  {
    if free != [] {
      assert free == [free[0]] + free[1..];
    }
    if partial != [] {
      assert partial == [partial[0]] + partial[1..];
    }
  }

  lemma GridInside(s: Slab, layout: Layout, a: nat)
    requires LayoutOk(layout) && s.Ok(layout) && OnGrid(s.memory.FromAddress(), layout, a)
    ensures s.memory.FromAddress() <= a < s.memory.ToAddress()
  {
    ObjectsApart(s.memory.FromAddress(), layout, a, a);
  }

  /** Objects of slabs do not overlap each other, nor a control block. */
  lemma GridsApart(layout: Layout, s: Slab, t: Slab, a: nat, b: nat)
    requires LayoutOk(layout) && s.Ok(layout) && t.Ok(layout) && (s == t || Apart(s, t))
    requires OnGrid(s.memory.FromAddress(), layout, a)
    ensures OnGrid(t.memory.FromAddress(), layout, b) && a != b ==>
      a + layout.objectSize <= b || b + layout.objectSize <= a
    ensures a + layout.objectSize <= t.memory.FromAddress() + layout.controlOffset
      || t.memory.ToAddress() <= a
  {
    ObjectsApart(s.memory.FromAddress(), layout, a, a);
    if OnGrid(t.memory.FromAddress(), layout, b) {
      ObjectsApart(t.memory.FromAddress(), layout, b, b);
      if s == t {
        ObjectsApart(t.memory.FromAddress(), layout, a, b);
      }
    }
  }

  lemma NotElsewhere(layout: Layout, s: Slab, t: Slab, a: nat)
    requires LayoutOk(layout) && s.Ok(layout) && Apart(s, t) && t.memory.FromAddress() <= a < t.memory.ToAddress()
    ensures !s.Holds(layout, a)
  {
    hide LayoutOk, OnGrid;
    if s.Holds(layout, a) {
      GridInside(s, layout, a);
    }
  }

  lemma InsideRuns(layout: Layout, layout': Layout, s: Slab, t: Slab, a: nat, b: nat)
    requires LayoutOk(layout) && s.Ok(layout) && s.Holds(layout, a)
    requires LayoutOk(layout') && t.Ok(layout') && t.Holds(layout', b) && Apart(s, t)
    ensures a + layout.objectSize <= b || b + layout'.objectSize <= a
  {
    ObjectsApart(s.memory.FromAddress(), layout, a, a);
    ObjectsApart(t.memory.FromAddress(), layout', b, b);
  }

  lemma SeparatedRuns(m: Contiguous, n: Contiguous)
    requires m.ToAddress() <= n.FromAddress() || n.ToAddress() <= m.FromAddress()
    ensures Separated(m, n)
  {
  }

  lemma ControlInside(cache: Cache, s: Slab)
    requires LayoutOk(cache.layout) && s.Ok(cache.layout)
    ensures s.memory.FromAddress() <= cache.Control(s) < s.memory.ToAddress()
  {
  }

  lemma SlabsSize(s: Slab, layout: Layout)
    requires s.Ok(layout)
    ensures s.memory.Run? && s.memory.Size() == layout.slabSize
  {
  }

  lemma SlabsDiffer(cache: Cache, s: Slab, t: Slab)
    requires LayoutOk(cache.layout) && s.Ok(cache.layout) && t.Ok(cache.layout) && Apart(s, t)
    ensures s.memory != t.memory && cache.Control(s) != cache.Control(t)
  {
  }

  /** An address belongs to one slab only. */
  lemma OneOwner(layout: Layout, s: Slab, t: Slab, a: nat)
    requires LayoutOk(layout) && s.Ok(layout) && t.Ok(layout) && (s == t || Apart(s, t))
    requires OnGrid(s.memory.FromAddress(), layout, a) && OnGrid(t.memory.FromAddress(), layout, a)
    ensures s == t
  {
    ObjectsApart(s.memory.FromAddress(), layout, a, a);
    ObjectsApart(t.memory.FromAddress(), layout, a, a);
  }

  class Cache {
    const layout: Layout
    const ram: Physical
    const blocks: ControlBlocks
    var occupied: nat
    var free: seq<Slab>
    var partial: seq<Slab>
    var full: seq<Slab>
    var total: nat
    var reclaimable: nat
    /** The objects handed out and not yet freed. */
    ghost var objects: set<nat>

    constructor (layout: Layout, ram: Physical, blocks: ControlBlocks)
      requires LayoutOk(layout)
      ensures this.layout == layout && this.ram == ram && this.blocks == blocks
      ensures Valid() && objects == {} && Slabs() == []
    {
      this.layout := layout;
      this.ram := ram;
      this.blocks := blocks;
      occupied := 0;
      free := [];
      partial := [];
      full := [];
      total := 0;
      reclaimable := 0;
      objects := {};
    }

    ghost function Slabs(): seq<Slab>
      reads this
    {
      All(free, partial, full)
    }

    function Control(s: Slab): nat {
      s.memory.FromAddress() + layout.controlOffset
    }

    ghost predicate Valid()
      reads this, free, partial, full, blocks, ram.zones
    {
      && LayoutOk(layout) && Filed(this, free, partial, full)
      && Placed(this, blocks.at, All(free, partial, full)) && Holding(layout, All(free, partial, full), objects)
      && Counted(layout, total, occupied, reclaimable, |objects|, |All(free, partial, full)|, |free|)
    }

    /** The address rounds down to a slab with a control block. */
    ghost predicate Mapped(ptr: nat)
      requires LayoutOk(layout)
      reads blocks
    {
      AlignDown(ptr, layout.slabSize) + layout.controlOffset in blocks.at
    }

    /** `Allocator::Find`: the control block of the slab that the address rounds down to. */
    function Find(ptr: nat): Option<Slab>
      requires LayoutOk(layout) && Mapped(ptr)
      reads blocks
    {
      var slab := blocks.at[AlignDown(ptr, layout.slabSize) + layout.controlOffset];
      if slab.memory.FromAddress() <= ptr < slab.memory.ToAddress() then Some(slab) else None
    }

    /** Owner lookup is exact: for every byte of a slab, rounding down leads to its control
      * block. */
    lemma FindIsExact(s: Slab, ptr: nat)
      requires LayoutOk(layout) && s.Ok(layout) && PlacedAt(this, blocks.at, s)
      requires s.memory.FromAddress() <= ptr < s.memory.ToAddress()
      ensures Mapped(ptr) && Find(ptr) == Some(s)
    {
      AlignDownFindsBlock(ptr, layout.slabSize, s.memory.FromAddress());
    }

    /** The memory lies apart from that of every slab. */
    ghost predicate Clear(m: Contiguous)
      reads this
    {
      forall s :: s in Slabs() ==> Separated(s.memory, m)
    }

    /** Memory for a new slab: aligned to its size, and apart from the other slabs. */
    method SlabMemory() returns (r: Option<Contiguous>)
      requires LayoutOk(layout) && Placed(this, blocks.at, Slabs()) && ram.Valid()
      modifies ram.zones
      ensures unchanged(All(free, partial, full))
      ensures ram.Valid() && Placed(this, blocks.at, Slabs())
      ensures r == None <==> NoRoom(old(ram.Worlds()), layout.slabSize)
      ensures r == None ==> ram.Worlds() == old(ram.Worlds()) && ram.Available() == old(ram.Available())
      ensures r.Some? ==> FirstRun(old(ram.Worlds()), layout.slabSize, r.value)
      ensures r.Some? ==>
        && r.value.Run? && r.value.Size() == layout.slabSize && r.value.FromAddress() % layout.slabSize == 0
        && ram.Out(r.value) && Clear(r.value)
        && ram.Available() + layout.slabSize == old(ram.Available())
      ensures forall m :: old(ram.Out(m)) ==>
        ram.Out(m) && (r.Some? ==> Separated(m, r.value))
    {
      hide Physical.Valid, Physical.Available, Physical.Worlds, NoRoom, LeastOrder, Pow2, IsPow2,
        Contiguous.FromAddress, Contiguous.ToAddress, Contiguous.Size, OutIn, BuddyRuns.Step,
        BuddySpec.Ready, BuddySpec.CanAllocate, BuddySpec.Chosen;
      r := ram.AllocatePhysical(layout.slabSize);
      if r.Some? {
        ExactSize(r.value);
        forall m: Contiguous | old(ram.Out(m))
          ensures Separated(m, r.value)
        {
          ram.OutFacts(m, r.value);
        }
      }
      assert forall s :: s in Slabs() ==> old(PlacedAt(this, blocks.at, s));
    }

    /** The least order that fits a slab fits it exactly, so its memory is aligned to it. */
    lemma ExactSize(m: Contiguous)
      requires LayoutOk(layout) && ram.Valid() && ram.Out(m) && LeastOrder(layout.slabSize, m.order)
      ensures m.Size() == layout.slabSize && m.FromAddress() % layout.slabSize == 0
    {
      var k: nat :| layout.slabSize == Pow2(k);
      Pow2Words();
      if k < 12 {
        Pow2StrictlyMonotone(k, 12);
      }
      LeastOrderExact(k, m.order);
      ram.OutFacts(m, m);
    }

    /** `Allocator::Allocate`: a slab in fresh memory. */
    method NewSlab() returns (r: Option<Slab>)
      requires Valid() && ram.Valid()
      modifies this`occupied, blocks, ram.zones
      ensures unchanged(All(free, partial, full))
      ensures ram.Valid()
      ensures r == None <==> NoRoom(old(ram.Worlds()), layout.slabSize)
      ensures r == None ==> Placed(this, blocks.at, Slabs()) && unchanged(this) && unchanged(blocks)
      ensures r == None ==> ram.Worlds() == old(ram.Worlds()) && ram.Available() == old(ram.Available())
      ensures r.Some? ==> FirstRun(old(ram.Worlds()), layout.slabSize, r.value.memory)
      ensures r.Some? ==>
        && fresh(r.value) && r.value.Ok(layout) && r.value.cache == this && r.value.count == 0
        && Placed(this, blocks.at, [r.value] + Slabs())
        && r.value.freelist == Grid(r.value.memory.FromAddress(), layout.objectSize, layout.objects)
        && occupied == old(occupied) + layout.slabSize
        && ram.Available() + layout.slabSize == old(ram.Available())
      ensures forall m :: old(ram.Out(m)) ==> ram.Out(m) && Kept(old(blocks.at), blocks.at, m)
    {
      hide Cache.Clear, Contiguous.FromAddress, Contiguous.ToAddress, Contiguous.Size, Counted, Filed, FirstRun, Grid,
        Holding, Kept, LayoutOk, NoRoom, Physical.Available, Physical.Out, Physical.Valid, Physical.Worlds, Placed,
        Separated, Slab.Ok;
      var memory := SlabMemory();
      if memory == None {
        KeptSelf(blocks.at);
        return None;
      }
      var slab := SlabIn(memory.value);
      occupied := occupied + layout.slabSize;
      return Some(slab);
    }

    /** The slab that takes a run of pages, with its control block at the end of the run. */
    method SlabIn(memory: Contiguous) returns (slab: Slab)
      requires LayoutOk(layout) && Filed(this, free, partial, full) && Placed(this, blocks.at, Slabs())
      requires memory.Run? && memory.Size() == layout.slabSize && memory.FromAddress() % layout.slabSize == 0
      requires ram.Out(memory) && Clear(memory)
      modifies blocks
      ensures fresh(slab) && slab.Ok(layout) && slab.cache == this && slab.memory == memory && slab.count == 0
      ensures slab.freelist == Grid(memory.FromAddress(), layout.objectSize, layout.objects)
      ensures Placed(this, blocks.at, [slab] + Slabs())
      ensures forall m :: Separated(m, memory) ==> Kept(old(blocks.at), blocks.at, m)
    {
      hide Cache.Clear, Contiguous.FromAddress, Contiguous.Size, Filed, Grid, IsPow2, Physical.Out, Placed, Slab.Ok;
      slab := new Slab(this, memory, layout);
      PlacedMore(slab, blocks.at);
      KeptMore(blocks.at, memory, memory.FromAddress() + layout.controlOffset, slab);
      blocks.at := blocks.at[memory.FromAddress() + layout.controlOffset := slab];
    }

    lemma PlacedMore(slab: Slab, at: map<nat, Slab>)
      requires LayoutOk(layout) && slab.Ok(layout) && Clear(slab.memory)
      requires ram.Out(slab.memory) && slab.memory.FromAddress() % layout.slabSize == 0
      requires Filed(this, free, partial, full) && Placed(this, at, Slabs())
      ensures Placed(this, at[Control(slab) := slab], [slab] + Slabs())
    {
    }

    /** What a valid cache is made of. */
    lemma Parts()
      requires Valid()
      ensures LayoutOk(layout) && layout.objects >= 32
      ensures Shelf(this, free, 0, 0) && Shelf(this, partial, 1, layout.objects - 1)
      ensures Shelf(this, full, layout.objects, layout.objects)
      ensures AllOk(this, All(free, partial, full))
      ensures Placed(this, blocks.at, All(free, partial, full)) && Holding(layout, All(free, partial, full), objects)
      ensures Counted(layout, total, occupied, reclaimable, |objects|, |All(free, partial, full)|, |free|)
    {
    }

    lemma Whole()
      requires LayoutOk(layout) && layout.objects >= 32
      requires Shelf(this, free, 0, 0) && Shelf(this, partial, 1, layout.objects - 1)
      requires Shelf(this, full, layout.objects, layout.objects)
      requires Placed(this, blocks.at, All(free, partial, full)) && Holding(layout, All(free, partial, full), objects)
      requires Counted(layout, total, occupied, reclaimable, |objects|, |All(free, partial, full)|, |free|)
      ensures Valid()
    {
    }

    /** A slab hands out one of its objects, which no slab had handed out. */
    method Take(slab: Slab, ghost slabs: seq<Slab>) returns (r: nat)
      requires LayoutOk(layout) && slab in slabs && slab.count < layout.objects
      requires AllOk(this, slabs) && Placed(this, blocks.at, slabs) && Holding(layout, slabs, objects)
      modifies slab, this`objects
      ensures slab.Ok(layout) && slab.count == old(slab.count) + 1 && old(slab.freelist) == [r] + slab.freelist
      ensures r !in old(objects) && objects == old(objects) + {r} && |objects| == |old(objects)| + 1
      ensures Holding(layout, slabs, objects)
    {
      hide Slab.Ok, OnGrid, LayoutOk, PlacedAt, Apart;
      var storage := slab.Allocate(layout);
      r := storage.value;
      forall s | s in slabs && old(s.Holds(layout, r))
        ensures false
      {
        OneOwner(layout, s, slab, r);
      }
      objects := objects + {r};
    }

    /** The slab is the first of the list for the count, and the lists are in order without it. */
    ghost predicate Headed(slab: Slab, rest: seq<Slab>, count: nat)
      reads this, free, partial, full, rest
    {
      && slab.cache == this && slab !in free && slab !in rest && Shelf(this, free, 0, 0) && layout.objects >= 32
      && if count == layout.objects then
           && full == [slab] + rest && slab !in partial
           && Shelf(this, rest, layout.objects, layout.objects) && Shelf(this, partial, 1, layout.objects - 1)
         else
           && partial == [slab] + rest && slab !in full
           && Shelf(this, rest, 1, layout.objects - 1) && Shelf(this, full, layout.objects, layout.objects)
    }

    /** The last step of an allocation, with the lists and counters already as they will be. */
    method TakeHead(slab: Slab, ghost rest: seq<Slab>) returns (r: nat)
      requires LayoutOk(layout) && layout.objects >= 32 && slab.Ok(layout) && slab.count < layout.objects
      requires Headed(slab, rest, slab.count + 1) && AllOk(this, All(free, partial, full))
      requires Placed(this, blocks.at, All(free, partial, full)) && Holding(layout, All(free, partial, full), objects)
      requires Counted(layout, total, occupied, reclaimable, |objects| + 1, |All(free, partial, full)|, |free|)
      modifies slab, this`objects
      ensures Valid() && r !in old(objects) && objects == old(objects) + {r}
      ensures slab.count == old(slab.count) + 1 && old(slab.freelist) == [r] + slab.freelist
    {
      hide All, AllOk, Cache.Valid, Counted, Holding, LayoutOk, Placed, Shelf, Slab.Ok;
      ghost var k := layout.objects;
      OnAList(slab, free, partial, full);
      r := Take(slab, All(free, partial, full));
      if slab.count == k {
        ShelfPush(this, rest, k, k, slab);
      } else {
        ShelfPush(this, rest, 1, k - 1, slab);
      }
      Whole();
    }

    /** From the first partial slab, which moves to the full ones with its last object. */
    method AllocatePartial() returns (r: nat)
      requires Valid() && partial != []
      modifies this, Slabs()
      ensures Valid()
      ensures occupied == old(occupied) && reclaimable == old(reclaimable)
      ensures r !in old(objects) && objects == old(objects) + {r}
      ensures var slab := old(partial[0]);
        && old(slab.freelist) == [r] + slab.freelist && slab.count == old(slab.count) + 1 && free == old(free)
        && if slab.count == layout.objects then partial == old(partial)[1..] && full == [slab] + old(full)
           else partial == old(partial) && full == old(full)
    {
      hide All, AllOk, Cache.Valid, Counted, Holding, LayoutOk, Placed, SameSlabs, Shelf, Slab.Ok;
      Parts();
      ghost var k, was := layout.objects, All(free, partial, full);
      ShelfPop(this, partial, 1, k - 1);
      var slab := partial[0];
      ShelvesApart(this, partial, 1, k - 1, free, 0, 0, slab);
      ShelvesApart(this, partial, 1, k - 1, full, k, k, slab);
      OnAList(slab, free, partial, full);
      ghost var rest := partial[1..];
      if slab.count + 1 == layout.objects {
        rest := full;
        partial := partial[1..];
        full := [slab] + full;
        MovedOn(free, old(partial), old(full));
        SameAll(this, was, All(free, partial, full), objects);
      }
      CountedMore(layout, total, occupied, reclaimable, |objects|, |was|, |free|);
      total := total + layout.objectSize;
      assert Headed(slab, rest, slab.count + 1);
      r := TakeHead(slab, rest);
    }

    /** From the first free slab, which becomes partial. */
    method AllocateFree() returns (r: nat)
      requires Valid() && free != []
      modifies this, Slabs()
      ensures Valid()
      ensures occupied == old(occupied) && reclaimable == old(reclaimable) - layout.slabSize
      ensures r !in old(objects) && objects == old(objects) + {r}
      ensures var slab := old(free[0]);
        && old(slab.freelist) == [r] + slab.freelist && slab.count == old(slab.count) + 1
        && free == old(free)[1..] && partial == [slab] + old(partial) && full == old(full)
    {
      hide All, AllOk, Cache.Valid, Counted, Holding, LayoutOk, Placed, SameSlabs, Shelf, Slab.Ok;
      Parts();
      ghost var k, was := layout.objects, All(free, partial, full);
      ShelfPop(this, free, 0, 0);
      var slab := free[0];
      ShelvesApart(this, free, 0, 0, partial, 1, k - 1, slab);
      ShelvesApart(this, free, 0, 0, full, k, k, slab);
      OnAList(slab, free, partial, full);
      ghost var rest := partial;
      free := free[1..];
      partial := [slab] + partial;
      MovedOn(old(free), old(partial), full);
      SameAll(this, was, All(free, partial, full), objects);
      CountedMore(layout, total, occupied, reclaimable, |objects|, |was|, |free| + 1);
      total := total + layout.objectSize;
      CountedMove(layout, total, occupied, reclaimable, |objects| + 1, |was|, |free|);
      reclaimable := reclaimable - layout.slabSize;
      r := TakeHead(slab, rest);
    }

    /** From a slab in memory of the page allocator. */
    method AllocateNew() returns (r: nat, ghost done: bool)
      requires Valid() && ram.Valid() && free == [] && partial == []
      modifies this, Slabs(), blocks, ram.zones
      ensures Valid() && ram.Valid()
      ensures done <==> !NoRoom(old(ram.Worlds()), layout.slabSize)
      ensures !done ==> r == 0 && unchanged(this) && unchanged(Slabs()) && ram.Worlds() == old(ram.Worlds())
      ensures done ==> r !in old(objects) && objects == old(objects) + {r}
      ensures done ==> NewObject(old(ram.Worlds()), r)
      ensures done ==> |partial| == 1 && fresh(partial[0]) && free == old(free) && full == old(full)
      ensures occupied == old(occupied) + (if done then layout.slabSize else 0) && reclaimable == old(reclaimable)
      ensures ram.Available() + occupied == old(ram.Available() + occupied)
      ensures forall m :: old(ram.Out(m)) ==> ram.Out(m) && Kept(old(blocks.at), blocks.at, m)
    {
      hide All, AllOk, Cache.NewObject, Cache.Valid, Contiguous.FromAddress, Counted, FirstRun, Grid, Holding, LayoutOk,
        NoRoom, Physical.Available, Physical.Valid, Physical.Worlds, Placed, Shelf, Slab.Ok;
      Parts();
      CountedSlab(layout, total, occupied, reclaimable, |objects|, |All(free, partial, full)|, |free|);
      var slab := NewSlab();
      if slab == None {
        Whole();
        return 0, false;
      }
      r := AllocateFirst(slab.value);
      IsNewObject(old(ram.Worlds()), slab.value.memory);
      done := true;
    }

    /** The first object of a new slab. */
    method AllocateFirst(slab: Slab) returns (r: nat)
      requires LayoutOk(layout) && layout.objects >= 32 && free == [] && partial == [] && slab !in full
      requires Shelf(this, free, 0, 0) && Shelf(this, partial, 1, layout.objects - 1)
      requires Shelf(this, full, layout.objects, layout.objects) && AllOk(this, All(free, partial, full))
      requires slab.Ok(layout) && slab.cache == this && slab.count == 0
      requires slab.freelist == Grid(slab.memory.FromAddress(), layout.objectSize, layout.objects)
      requires Placed(this, blocks.at, [slab] + All(free, partial, full))
      requires Holding(layout, All(free, partial, full), objects)
      requires Counted(layout, total, occupied, reclaimable, |objects|, |All(free, partial, full)| + 1, |free|)
      modifies this`partial, this`total, this`objects, slab
      ensures Valid() && r !in old(objects) && objects == old(objects) + {r} && r == slab.memory.FromAddress()
      ensures partial == [slab] && [r] + slab.freelist == old(slab.freelist)
    {
      hide All, AllOk, Cache.Valid, Contiguous.FromAddress, Counted, Grid, Holding, LayoutOk, Placed, Shelf, Slab.Ok;
      ghost var rest, was := partial, All(free, partial, full);
      CountedMore(layout, total, occupied, reclaimable, |objects|, |was| + 1, |free|);
      AddedFirst(this, full, slab);
      partial := [slab] + partial;
      assert partial == [slab];
      total := total + layout.objectSize;
      ghost var from := slab.memory.FromAddress();
      GridFirst(from, layout.objectSize, layout.objects);
      r := TakeHead(slab, rest);
    }

    /** The object is the first of a slab in the memory that the page allocator gives next. */
    ghost predicate NewObject(worlds: seq<BuddyRuns.World>, a: nat) {
      exists m :: FirstRun(worlds, layout.slabSize, m) && a == m.FromAddress()
    }

    lemma IsNewObject(worlds: seq<BuddyRuns.World>, m: Contiguous)
      requires FirstRun(worlds, layout.slabSize, m)
      ensures NewObject(worlds, m.FromAddress())
    {
    }

    /** The object that is next: the first on the free list of the first partial slab, or else of
      * the first free slab, or else of a new slab. */
    ghost predicate NextObject(worlds: seq<BuddyRuns.World>, a: nat)
      reads this, partial, free
    {
      if partial != [] then [a] <= partial[0].freelist
      else if free != [] then [a] <= free[0].freelist
      else NewObject(worlds, a)
    }

    /** At most one object is next, and none if there is no slab and no room for one. */
    lemma NextObjectUnique(worlds: seq<BuddyRuns.World>, a: nat, b: nat)
      requires NextObject(worlds, a)
      ensures NextObject(worlds, b) ==> a == b
      ensures partial != [] || free != [] || !NoRoom(worlds, layout.slabSize)
    {
      if partial != [] {
        assert NextObject(worlds, b) ==> a == partial[0].freelist[0] == b;
      } else if free != [] {
        assert NextObject(worlds, b) ==> a == free[0].freelist[0] == b;
      } else {
        var m :| FirstRun(worlds, layout.slabSize, m) && a == m.FromAddress();
        FirstRunUnique(worlds, layout.slabSize, m, m);
        if NextObject(worlds, b) {
          var n :| FirstRun(worlds, layout.slabSize, n) && b == n.FromAddress();
          FirstRunUnique(worlds, layout.slabSize, m, n);
        }
      }
    }

    /** `Cache::Allocate`: hands out the next object, and fails only without memory for a slab. A
      * failure returns null, the address 0, and so does a success exactly if 0 is the next object. */
    method Allocate() returns (r: nat, ghost done: bool)
      requires Valid() && ram.Valid()
      modifies this, Slabs(), blocks, ram.zones
      ensures done <==> old(partial) != [] || old(free) != [] || !NoRoom(old(ram.Worlds()), layout.slabSize)
      ensures !done ==> r == 0 && unchanged(this) && unchanged(Slabs()) && ram.Worlds() == old(ram.Worlds())
      ensures done ==> r !in old(objects) && objects == old(objects) + {r}
      ensures done ==> old(NextObject(ram.Worlds(), r))
      ensures done && r == 0 <==> old(NextObject(ram.Worlds(), 0))
      ensures done && old(partial) == [] && old(free) == [] ==>
        |partial| == 1 && fresh(partial[0]) && free == [] && full == old(full)
      ensures ram.Available() + occupied == old(ram.Available() + occupied)
      ensures occupied == old(occupied) + if done && old(partial) == [] && old(free) == [] then layout.slabSize else 0
      ensures reclaimable == old(reclaimable) - if old(partial) == [] && old(free) != [] then layout.slabSize else 0
      ensures forall m :: old(ram.Out(m)) ==> ram.Out(m) && Kept(old(blocks.at), blocks.at, m)
      ensures Valid() && ram.Valid()
    {
      hide *;
      KeptSelf(blocks.at);
      OnlyNext(ram.Worlds());
      HeadIsNext(ram.Worlds());
      if partial != [] {
        r := AllocatePartial();
        return r, true;
      }
      if free != [] {
        r := AllocateFree();
        return r, true;
      }
      r, done := AllocateNew();
    }

    lemma OnlySlab()
      requires Valid() && free == [] && full == [] && |partial| == 1
      ensures LayoutOk(layout) && Slabs() == partial && Traceable(0) && !Bogus(0)
    {
    }

    lemma FirstIsNext(m: Contiguous)
      requires Slabs() == [] && FirstRun(ram.Worlds(), layout.slabSize, m) && m.FromAddress() == 0
      ensures partial == [] && free == [] && full == []
      ensures NextObject(ram.Worlds(), 0)
    {
    }

    lemma HeadIsNext(worlds: seq<BuddyRuns.World>)
      ensures partial != [] ==> forall a: nat :: [a] <= partial[0].freelist <==> NextObject(worlds, a)
      ensures partial == [] && free != [] ==> forall a: nat :: [a] <= free[0].freelist <==> NextObject(worlds, a)
      ensures partial == [] && free == [] ==> forall a: nat :: NewObject(worlds, a) <==> NextObject(worlds, a)
    {
    }

    lemma OnlyNext(worlds: seq<BuddyRuns.World>)
      ensures forall a: nat, b: nat :: NextObject(worlds, a) && NextObject(worlds, b) ==> a == b
      ensures forall a: nat :: NextObject(worlds, a) ==>
        partial != [] || free != [] || !NoRoom(worlds, layout.slabSize)
    {
      forall a: nat | NextObject(worlds, a)
        ensures forall b: nat :: NextObject(worlds, b) ==> a == b
        ensures partial != [] || free != [] || !NoRoom(worlds, layout.slabSize)
      {
        forall b: nat
          ensures NextObject(worlds, b) ==> a == b
        {
          NextObjectUnique(worlds, a, b);
        }
      }
    }

    /** What reading the control block relies on: the address leads to one, and one of this cache is
      * that of a slab on its lists. */
    ghost predicate Traceable(ptr: nat)
      requires LayoutOk(layout)
      reads this, blocks
    {
      ptr != 0 ==> Mapped(ptr) && (Find(ptr).Some? && Find(ptr).value.cache == this ==> Find(ptr).value in Slabs())
    }

    /** The address is in a slab of this cache with objects out, but is not one of them. */
    ghost predicate Bogus(ptr: nat)
      requires LayoutOk(layout) && Traceable(ptr)
      reads this, blocks, blocks.at.Values
    {
      && ptr != 0 && Find(ptr).Some? && Find(ptr).value.cache == this && Find(ptr).value.count > 0
      && ptr !in objects
    }

    /** The slab that handed an object out. */
    lemma Owner(ptr: nat) returns (s: Slab)
      requires Valid() && ptr in objects
      ensures s in Slabs() && s.Ok(layout) && s.cache == this && s.Holds(layout, ptr)
      ensures LayoutOk(layout) && PlacedAt(this, blocks.at, s)
    {
      hide Slab.Ok, Slab.Holds, LayoutOk, PlacedAt, Counted, All;
      s :| s in Slabs() && s.Holds(layout, ptr);
      Parts();
    }

    /** An object that is out is found in the slab that handed it out. */
    lemma FoundIsOwner(ptr: nat)
      requires Valid() && ptr in objects
      ensures Mapped(ptr) && Find(ptr).Some?
      ensures var s := Find(ptr).value; s in Slabs() && s.Holds(layout, ptr) && s.cache == this && s.count > 0
    {
      hide Cache.Find, Cache.Mapped, Cache.Slabs, Cache.Valid, Contiguous.FromAddress, Contiguous.ToAddress, LayoutOk,
        OnGrid, PlacedAt, Slab.Ok;
      var s := Owner(ptr);
      s.HoldsSome(layout, ptr);
      GridInside(s, layout, ptr);
      FindIsExact(s, ptr);
    }

    /** A slab takes an address back. */
    method Return(slab: Slab, ptr: nat, ghost slabs: seq<Slab>) returns (ok: bool)
      requires LayoutOk(layout) && slab in slabs && slab.count > 0
      requires slab.memory.FromAddress() <= ptr < slab.memory.ToAddress()
      requires AllOk(this, slabs) && Placed(this, blocks.at, slabs) && Holding(layout, slabs, objects)
      modifies slab, this`objects
      ensures ok && slab.count == old(slab.count) - 1 && slab.freelist == [ptr] + old(slab.freelist)
      ensures objects == old(objects) - {ptr}
      ensures (slab.Ok(layout) <==> ptr in old(objects)) && (ptr in old(objects) <==> old(slab.Holds(layout, ptr)))
      ensures ptr in old(objects) ==>
        |objects| == |old(objects)| - 1 && AllOk(this, slabs) && Holding(layout, slabs, objects)
    {
      hide Slab.Ok, OnGrid, LayoutOk, PlacedAt, Apart, Contiguous.FromAddress, Contiguous.ToAddress;
      forall s | s in slabs && s != slab
        ensures !s.Holds(layout, ptr)
      {
        NotElsewhere(layout, s, slab, ptr);
      }
      ok := slab.Free(layout, ptr);
      objects := objects - {ptr};
    }

    /** The last part of `Cache::Free`: the cache stays valid exactly if the address is an object
      * that was out. */
    method FreeIn(slab: Slab, ptr: nat) returns (ok: bool)
      requires Valid() && slab in Slabs() && slab.count > 0
      requires slab.memory.FromAddress() <= ptr < slab.memory.ToAddress()
      modifies this, Slabs()
      ensures ok && objects == old(objects) - {ptr} && occupied == old(occupied)
      ensures (Valid() <==> ptr in old(objects)) && (ptr in old(objects) <==> old(slab.Holds(layout, ptr)))
      ensures slab.freelist == [ptr] + old(slab.freelist) && slab.count == old(slab.count) - 1
      ensures
        if slab.count == 0 then
          free == [slab] + old(free) && partial == Without<Slab>(old(partial), slab) && full == old(full)
        else if slab.count + 1 == layout.objects then
          free == old(free) && partial == [slab] + old(partial) && full == Without<Slab>(old(full), slab)
        else
          free == old(free) && partial == old(partial) && full == old(full)
    {
      hide *;
      Parts();
      OnItsList(slab);
      SomeOut(slab);
      ghost var rest, held := Rest(slab, slab.count), ptr in objects;
      ok := GiveBack(slab, ptr, rest);
      if !ok {
        return false;
      }
      Relist(slab, rest, held);
      TotalLess(held);
      total := total - layout.objectSize;
      WholeOrBroken(slab, held);
    }

    lemma TotalLess(held: bool)
      requires held ==>
        Counted(layout, total, occupied, reclaimable, |objects| + 1, |All(free, partial, full)|, |free|)
      ensures held ==>
        && total >= layout.objectSize
        && Counted(layout, total - layout.objectSize, occupied, reclaimable, |objects|, |All(free, partial, full)|,
                   |free|)
    {
      if held {
        CountedLess(layout, total, occupied, reclaimable, |objects|, |All(free, partial, full)|, |free|);
      }
    }

    /** With one slab that is not in order the cache is not valid. */
    lemma WholeOrBroken(slab: Slab, held: bool)
      requires slab in All(free, partial, full) && (slab.Ok(layout) <==> held)
      requires held ==>
        && LayoutOk(layout) && layout.objects >= 32
        && Shelf(this, free, 0, 0) && Shelf(this, partial, 1, layout.objects - 1)
        && Shelf(this, full, layout.objects, layout.objects)
        && Placed(this, blocks.at, All(free, partial, full)) && Holding(layout, All(free, partial, full), objects)
        && Counted(layout, total, occupied, reclaimable, |objects|, |All(free, partial, full)|, |free|)
      ensures Valid() <==> held
    {
      hide Slab.Ok, Cache.Valid;
      if held {
        Whole();
      } else if Valid() {
        Parts();
      }
    }

    /** A slab that counts objects has some out, which the total counts too. */
    lemma SomeOut(slab: Slab)
      requires Valid() && slab in Slabs() && slab.count > 0
      ensures total >= layout.objectSize
    {
      hide Slab.Ok, LayoutOk, All, Placed;
      Parts();
      var held := slab.CountsObjects(layout);
      var a :| a in held;
      assert a in objects;
      Multiples(1, |objects|, layout.objectSize);
    }

    /** The list of the slab, without it. */
    ghost function Rest(slab: Slab, listed: nat): seq<Slab>
      reads this
    {
      Without<Slab>(if listed == layout.objects then full else partial, slab)
    }

    /** The slab is on one of the lists, and the lists are in order without it. */
    ghost predicate Loose(slab: Slab, rest: seq<Slab>, listed: nat)
      reads this, free, partial, full, rest
    {
      && slab.cache == this && slab !in free && Shelf(this, free, 0, 0) && layout.objects >= 32
      && slab !in rest && rest == Rest(slab, listed)
      && if listed == layout.objects then
           && slab in full && slab !in partial
           && Shelf(this, rest, layout.objects, layout.objects) && Shelf(this, partial, 1, layout.objects - 1)
         else
           && slab in partial && slab !in full && NoDuplicates<Slab>(partial)
           && Shelf(this, rest, 1, layout.objects - 1) && Shelf(this, full, layout.objects, layout.objects)
    }

    method GiveBack(slab: Slab, ptr: nat, ghost rest: seq<Slab>) returns (ok: bool)
      requires LayoutOk(layout) && slab in All(free, partial, full) && slab.count > 0
      requires slab.memory.FromAddress() <= ptr < slab.memory.ToAddress()
      requires AllOk(this, All(free, partial, full)) && Loose(slab, rest, slab.count)
      requires Placed(this, blocks.at, All(free, partial, full)) && Holding(layout, All(free, partial, full), objects)
      modifies slab, this`objects
      ensures ok && slab.count == old(slab.count) - 1 && slab.freelist == [ptr] + old(slab.freelist)
      ensures objects == old(objects) - {ptr} && Loose(slab, rest, slab.count + 1)
      ensures (slab.Ok(layout) <==> ptr in old(objects)) && (ptr in old(objects) <==> old(slab.Holds(layout, ptr)))
      ensures ptr in old(objects) ==>
        && |objects| == |old(objects)| - 1
        && AllOk(this, All(free, partial, full)) && Holding(layout, All(free, partial, full), objects)
    {
      hide All, AllOk, Contiguous.FromAddress, Contiguous.ToAddress, Holding, LayoutOk, NoDuplicates, Placed, Shelf,
        Slab.Holds, Slab.Ok, Without;
      ok := Return(slab, ptr, All(free, partial, full));
    }

    /** Moves the slab to the list that its count demands. */
    method Relist(slab: Slab, ghost rest: seq<Slab>, ghost held: bool)
      requires Loose(slab, rest, slab.count + 1) && slab.count < layout.objects && slab in All(free, partial, full)
      requires held ==>
        && slab.Ok(layout) && LayoutOk(layout) && AllOk(this, All(free, partial, full))
        && Placed(this, blocks.at, All(free, partial, full)) && Holding(layout, All(free, partial, full), objects)
        && Counted(layout, total, occupied, reclaimable, |objects| + 1, |All(free, partial, full)|, |free|)
      modifies this`free, this`partial, this`full, this`reclaimable
      ensures held ==>
        && Shelf(this, free, 0, 0) && Shelf(this, partial, 1, layout.objects - 1)
        && Shelf(this, full, layout.objects, layout.objects) && LayoutOk(layout)
        && Placed(this, blocks.at, All(free, partial, full)) && Holding(layout, All(free, partial, full), objects)
        && Counted(layout, total, occupied, reclaimable, |objects| + 1, |All(free, partial, full)|, |free|)
      ensures slab in All(free, partial, full)
      ensures
        if slab.count == 0 then
          free == [slab] + old(free) && partial == Without<Slab>(old(partial), slab) && full == old(full)
        else if slab.count + 1 == layout.objects then
          free == old(free) && partial == [slab] + old(partial) && full == Without<Slab>(old(full), slab)
        else
          free == old(free) && partial == old(partial) && full == old(full)
    {
      hide All, AllOk, Counted, Holding, LayoutOk, NoDuplicates, Placed, SameSlabs, Shelf, Slab.Ok, Without;
      ghost var k, count := layout.objects, |All(free, partial, full)|;
      if slab.count == 0 {
        partial := Without<Slab>(partial, slab);
        free := [slab] + free;
        if held {
          CountedMoveBack(layout, total, occupied, reclaimable, |objects| + 1, count, |old(free)|);
        }
        reclaimable := reclaimable + layout.slabSize;
        if held {
          ShelfPush(this, old(free), 0, 0, slab);
        }
        MovedToFree(old(free), old(partial), full, slab);
      }
      if slab.count + 1 == layout.objects {
        full := Without<Slab>(full, slab);
        partial := [slab] + partial;
        if held {
          ShelfPush(this, old(partial), 1, k - 1, slab);
        }
        MovedToPartial(free, old(partial), old(full), slab);
      }
      if 0 < slab.count < layout.objects - 1 {
        if held {
          ShelfPut(this, partial, 1, k - 1, slab);
        }
        SameSelf(All(free, partial, full));
      }
      StillOnAList(All(old(free), old(partial), old(full)), All(free, partial, full), slab);
      if held {
        SameAll(this, All(old(free), old(partial), old(full)), All(free, partial, full), objects);
      }
    }

    lemma StillOnAList(slabs: seq<Slab>, others: seq<Slab>, slab: Slab)
      requires SameSlabs(slabs, others) && slab in slabs
      ensures slab in others
    {
    }

    lemma OnItsList(slab: Slab)
      requires Valid() && slab in Slabs() && slab.count > 0
      ensures Loose(slab, Rest(slab, slab.count), slab.count) && slab.count <= layout.objects
      ensures slab in All(free, partial, full)
    {
      FiledOk(this, free, partial, full);
      if slab in full {
        ShelfWithout(this, full, layout.objects, layout.objects, slab);
      } else {
        ShelfWithout(this, partial, 1, layout.objects - 1, slab);
      }
    }

    /** `Cache::Free`: null, an address outside the slab that it leads to and one in an empty
      * slab are refused, and a slab of another cache stops the kernel. An address in a slab with
      * objects out that is none of them, such as one freed already, is taken for an object, and
      * the cache is not valid any more. */
    method Free(ptr: nat) returns (r: Freeing)
      requires Valid() && Traceable(ptr)
      modifies this, Slabs()
      ensures Valid() <==> !old(Bogus(ptr))
      ensures occupied == old(occupied)
      ensures r == Freed <==> ptr != 0 && (ptr in old(objects) || old(Bogus(ptr)))
      ensures r == Freed ==> objects == old(objects) - {ptr}
      ensures r != Freed ==> unchanged(this) && unchanged(Slabs())
      ensures r == Panicked <==> ptr != 0 && old(Find(ptr)).Some? && old(Find(ptr)).value.cache != this
    {
      hide AlignDown, All, AllOk, Cache.Slabs, Cache.Valid, Counted, Holding, IsPow2, LayoutOk, Placed,
        Pow2, Shelf, Slab.Holds, Slab.Ok, Contiguous.FromAddress, Contiguous.ToAddress;
      Parts();
      if ptr == 0 {
        return Refused;
      }
      if ptr in objects {
        FoundIsOwner(ptr);
      }
      var slab := Find(ptr);
      if slab == None {
        return Refused;
      }
      if slab.value.cache != this {
        return Panicked;
      }
      if slab.value.count == 0 {
        return Refused;
      }
      var ok := FreeIn(slab.value, ptr);
      return if ok then Freed else Refused;
    }

    method GiveBackMemory(memory: Contiguous)
      requires ram.Valid() && ram.Out(memory)
      modifies ram.zones
      ensures ram.Valid() && forall m :: ram.Out(m) <==> old(ram.Out(m)) && m != memory
      ensures ram.Available() == old(ram.Available()) + memory.Size()
    {
      hide *;
      ram.FreePhysical(memory);
    }

    /** `Allocator::Free`: the memory of an empty slab goes back to the page allocator. */
    method FreeSlab(slab: Slab, ghost others: seq<Slab>)
      requires LayoutOk(layout) && ram.Valid() && slab.Ok(layout) && slab !in others
      requires AllOk(this, others) && Holding(layout, others, objects)
      requires Placed(this, blocks.at, [slab] + others) && occupied >= layout.slabSize
      modifies this`occupied, blocks, ram.zones
      ensures ram.Valid() && occupied == old(occupied) - layout.slabSize
      ensures ram.Available() == old(ram.Available()) + layout.slabSize
      ensures Placed(this, blocks.at, others) && AllOk(this, others) && Holding(layout, others, objects)
      ensures forall m :: old(ram.Out(m)) && m != slab.memory ==> ram.Out(m) && Kept(old(blocks.at), blocks.at, m)
    {
      hide Apart, Cache.Control, Cache.Valid, Contiguous.FromAddress, Contiguous.ToAddress, Contiguous.Size, Holding,
        Kept, LayoutOk, Physical.Available, Physical.Out, Physical.Valid, Separated, Slab.Ok;
      assert slab in [slab] + others;
      forall s | s in others
        ensures PlacedAt(this, blocks.at, s) && s.memory != slab.memory && Control(s) != Control(slab)
      {
        assert s in [slab] + others;
        SlabsDiffer(this, s, slab);
      }
      var memory := slab.memory;
      SlabsSize(slab, layout);
      occupied := occupied - layout.slabSize;
      forall m: Contiguous | ram.Out(m) && m != memory
        ensures Separated(m, memory)
      {
        ram.OutFacts(m, memory);
        SeparatedRuns(m, memory);
      }
      ControlInside(this, slab);
      KeptLess(blocks.at, memory, Control(slab));
      blocks.at := Erased(blocks.at, Control(slab));
      GiveBackMemory(memory);
    }

    /** `Cache::Reclaim`: returns the free slabs, which is all that `reclaimable` promises. */
    method Reclaim() returns (ret: bool)
      requires Valid() && ram.Valid()
      modifies this`free, this`reclaimable, this`occupied, blocks, ram.zones
      ensures Valid() && ram.Valid()
      ensures free == [] && partial == old(partial) && full == old(full) && objects == old(objects)
      ensures ret <==> old(reclaimable) != 0
      ensures reclaimable == 0 && occupied == old(occupied) - old(reclaimable)
      ensures ram.Available() == old(ram.Available()) + old(reclaimable)
      ensures forall m :: old(ram.Out(m)) && NoSlabIn(old(free), m) ==> ram.Out(m) && Kept(old(blocks.at), blocks.at, m)
    {
      hide *;
      Parts();
      KeptSelf(blocks.at);
      ret := reclaimable != 0;
      ghost var left: nat := reclaimable;
      ghost var k := layout.objects;
      while free != []
        invariant LayoutOk(layout) && ram.Valid() && k == layout.objects >= 32
        invariant Shelf(this, free, 0, 0) && Shelf(this, partial, 1, k - 1) && Shelf(this, full, k, k)
        invariant AllOk(this, All(free, partial, full))
        invariant Placed(this, blocks.at, All(free, partial, full))
        invariant Holding(layout, All(free, partial, full), objects)
        invariant Counted(layout, total, occupied, left, |objects|, |All(free, partial, full)|, |free|)
        invariant reclaimable == old(reclaimable) && left + old(occupied) == occupied + reclaimable
        invariant ram.Available() + occupied == old(ram.Available() + occupied)
        invariant forall m :: old(ram.Out(m)) && NoSlabIn(old(free), m) ==>
          ram.Out(m) && Kept(old(blocks.at), blocks.at, m) && NoSlabIn(free, m)
        decreases |free|
      {
        var slab := free[0];
        ghost var at := blocks.at;
        forall m: Contiguous | NoSlabIn(free, m)
          ensures slab.memory != m && NoSlabIn(free[1..], m)
        {
          NoSlabInRest(free, m);
        }
        ShelfPop(this, free, 0, 0);
        FirstOut(this, free, partial, full, objects);
        CountedFreed(layout, total, occupied, left, |objects|, |All(free[1..], partial, full)|, |free[1..]|);
        free := free[1..];
        FreeSlab(slab, All(free, partial, full));
        KeptOn(old(blocks.at), at, blocks.at);
        left := left - layout.slabSize;
      }
      reclaimable := 0;
      NoneLeft(layout, total, occupied, left, |objects|, |All(free, partial, full)|);
      Whole();
    }

    /** Objects that are out do not overlap each other, nor the control block at the end of any slab. */
    lemma ObjectsDisjoint(a: nat, b: nat, s: Slab)
      requires Valid() && a in objects && b in objects && s in Slabs()
      ensures a != b ==> a + layout.objectSize <= b || b + layout.objectSize <= a
      ensures a + layout.objectSize <= Control(s) || s.memory.ToAddress() <= a
    {
      hide All, Apart, Cache.Valid, Contiguous.FromAddress, Contiguous.ToAddress, Counted, Holding, LayoutOk, OnGrid,
        PlacedAt, Shelf, Slab.Ok;
      Parts();
      var t := Owner(a);
      var u := Owner(b);
      GridsApart(layout, t, u, a, b);
      GridsApart(layout, t, s, a, a);
    }

    /** Objects have the alignment that the layout was made for. */
    lemma ObjectsAligned(a: nat, alignment: nat)
      requires Valid() && a in objects
      requires IsPow2(alignment) && layout.objectSize % alignment == 0
      ensures a % alignment == 0
    {
      hide Cache.Control, Cache.Slabs, Cache.Valid, Contiguous.FromAddress, IsPow2, LayoutOk, OnGrid, Slab.Ok;
      var s := Owner(a);
      GridAligned(s.memory.FromAddress(), layout, alignment, a);
    }

    /** Slabs of different caches are different and do not share memory. */
    lemma CachesApart(other: Cache, s: Slab, t: Slab)
      requires Valid() && ram.Valid() && other.Valid()
      requires other != this && other.ram == ram && other.blocks == blocks && s in Slabs() && t in other.Slabs()
      ensures s != t && s.memory != t.memory && Apart(s, t)
    {
      hide Physical.Valid, Physical.Out, Pow2, IsPow2, OnGrid, NoDuplicates, Holding, Counted;
      if s.memory != t.memory {
        ram.OutFacts(s.memory, t.memory);
      }
    }

    /** Objects of different caches do not overlap. */
    lemma OthersDisjoint(other: Cache, a: nat, b: nat)
      requires Valid() && ram.Valid() && other.Valid()
      requires other != this && other.ram == ram && other.blocks == blocks && a in objects && b in other.objects
      ensures a + layout.objectSize <= b || b + other.layout.objectSize <= a
    {
      hide *;
      var s := Owner(a);
      var t := other.Owner(b);
      CachesApart(other, s, t);
      InsideRuns(layout, other.layout, s, t, a, b);
    }

    /** Allocating from one cache leaves another valid, with the same objects out. */
    method AllocateBeside(other: Cache) returns (r: nat, ghost done: bool)
      requires Valid() && ram.Valid() && other.Valid()
      requires other != this && other.ram == ram && other.blocks == blocks
      modifies this, Slabs(), blocks, ram.zones
      ensures Valid() && ram.Valid() && other.Valid() && other.objects == old(other.objects)
    {
      hide AllApart, AllOk, Cache.Located, Cache.Slabs, Cache.Valid, Contiguous.FromAddress, Counted, Holding, Kept,
        LayoutOk, NoRoom, Physical.Available, Physical.Out, Physical.Valid, Physical.Worlds, Placed, Shelf, Slab.Ok;
      other.Parts();
      OthersElsewhere(other);
      ghost var slabs, at := All(other.free, other.partial, other.full), blocks.at;
      other.PlacedParts(at, slabs);
      r, done := Allocate();
      other.StillPlaced(at, blocks.at, slabs);
      other.Whole();
    }

    lemma PlacedParts(at: map<nat, Slab>, slabs: seq<Slab>)
      requires LayoutOk(layout) && Placed(this, at, slabs) && AllOk(this, slabs)
      ensures forall s :: s in slabs ==> ram.Out(s.memory) && Located(at, s)
      ensures AllApart(slabs)
    {
    }

    /** The slab is aligned and its control block is where `Find` looks for it. */
    ghost predicate Located(at: map<nat, Slab>, s: Slab)
      requires LayoutOk(layout)
    {
      && s.memory.FromAddress() % layout.slabSize == 0 && s.memory.Run? && s.memory.Size() == layout.slabSize
      && Control(s) in at && at[Control(s)] == s
    }

    lemma StillPlaced(at: map<nat, Slab>, at': map<nat, Slab>, slabs: seq<Slab>)
      requires LayoutOk(layout) && AllApart(slabs)
      requires forall s :: s in slabs ==> ram.Out(s.memory) && Located(at, s) && Kept(at, at', s.memory)
      ensures Placed(this, at', slabs)
    {
    }

    /** So does freeing an object of it. */
    method FreeBeside(ptr: nat, other: Cache) returns (r: Freeing)
      requires Valid() && ram.Valid() && other.Valid() && Traceable(ptr)
      requires other != this && other.ram == ram && other.blocks == blocks
      modifies this, Slabs()
      ensures other.Valid() && other.objects == old(other.objects) && (Valid() <==> !old(Bogus(ptr)))
    {
      hide AllApart, AllOk, Cache.Located, Cache.Slabs, Cache.Valid, Contiguous.FromAddress, Counted, Holding, Kept,
        LayoutOk, Cache.Traceable, Cache.Bogus, Physical.Available, Physical.Out, Physical.Valid, Physical.Worlds,
        Placed, Shelf, Slab.Ok;
      other.Parts();
      OthersElsewhere(other);
      r := Free(ptr);
      other.Whole();
    }

    /** And so does reclaiming its free slabs. */
    method ReclaimBeside(other: Cache) returns (ret: bool)
      requires Valid() && ram.Valid() && other.Valid()
      requires other != this && other.ram == ram && other.blocks == blocks
      modifies this`free, this`reclaimable, this`occupied, blocks, ram.zones
      ensures Valid() && ram.Valid() && other.Valid() && other.objects == old(other.objects)
    {
      hide AllApart, AllOk, Cache.Located, Cache.Slabs, Cache.Valid, Contiguous.FromAddress, Counted, Holding, Kept,
        LayoutOk, NoSlabIn, Physical.Available, Physical.Out, Physical.Valid, Physical.Worlds, Placed, Shelf, Slab.Ok;
      other.Parts();
      OthersElsewhere(other);
      ghost var slabs, at := All(other.free, other.partial, other.full), blocks.at;
      other.PlacedParts(at, slabs);
      OthersNotFree(other);
      ret := Reclaim();
      other.StillPlaced(at, blocks.at, slabs);
      other.Whole();
    }

    lemma OthersNotFree(other: Cache)
      requires Valid() && ram.Valid() && other.Valid()
      requires other != this && other.ram == ram && other.blocks == blocks
      ensures forall t :: t in All(other.free, other.partial, other.full) ==> NoSlabIn(free, t.memory)
    {
      hide *;
      forall t | t in All(other.free, other.partial, other.full)
        ensures NoSlabIn(free, t.memory)
      {
        NoneThere(other, t);
      }
    }

    lemma NoneThere(other: Cache, t: Slab)
      requires Valid() && ram.Valid() && other.Valid() && t in All(other.free, other.partial, other.full)
      requires other != this && other.ram == ram && other.blocks == blocks
      ensures NoSlabIn(free, t.memory)
    {
      hide Cache.Valid, Physical.Valid, Apart;
      forall s | s in free
        ensures s.memory != t.memory
      {
        CachesApart(other, s, t);
      }
    }

    lemma OthersElsewhere(other: Cache)
      requires Valid() && ram.Valid() && other.Valid()
      requires other != this && other.ram == ram && other.blocks == blocks
      ensures forall t :: t in other.free || t in other.partial || t in other.full ==> t !in Slabs()
    {
    }

    /** Unless a zone starts at address 0, null is never an object. */
    lemma NullIsNoObject()
      requires Valid() && ram.Valid() && forall k :: 0 <= k < |ram.zones| ==> ram.zones[k].from > 0
      ensures 0 !in objects
    {
      hide Cache.Control, Cache.Slabs, Cache.Valid, Contiguous.FromAddress, Contiguous.ToAddress, LayoutOk, OnGrid,
        Physical.Out, Physical.Valid, Slab.Ok;
      if 0 in objects {
        var s := Owner(0);
        GridInside(s, layout, 0);
        ram.OutInside(s.memory);
      }
    }

    /** What the counters say: the objects that are out are counted by their slabs, and the
      * totals are the bytes of these objects, of all slabs and of the free slabs. */
    lemma Accounts()
      requires Valid()
      ensures |objects| == SumCounts(Slabs()) && total == layout.objectSize * |objects|
      ensures occupied == layout.slabSize * |Slabs()| && reclaimable == layout.slabSize * |free|
    {
      hide Holding, Placed, LayoutOk, Slab.Ok, AllOk, AllApart, SumCounts, NoDuplicates;
      Parts();
      PlacedParts(blocks.at, All(free, partial, full));
      NoSlabTwice(this, free, partial, full);
      CountsAdd(this, All(free, partial, full), objects);
    }
  }

  /** The sum of the counters of the slabs. */
  ghost function SumCounts(q: seq<Slab>): nat
    reads q
  {
    if q == [] then 0 else q[0].count + SumCounts(q[1..])
  }

  lemma NoSlabTwice(cache: Cache, free: seq<Slab>, partial: seq<Slab>, full: seq<Slab>)
    requires LayoutOk(cache.layout) && Filed(cache, free, partial, full)
    ensures NoDuplicates<Slab>(All(free, partial, full))
  {
    ConcatNoDuplicates<Slab>(free, partial);
    ConcatNoDuplicates<Slab>(free + partial, full);
  }

  /** Together the slabs have handed out as many objects as they count. */
  lemma {:induction false} CountsAdd(cache: Cache, slabs: seq<Slab>, objects: set<nat>)
    requires LayoutOk(cache.layout) && AllOk(cache, slabs) && AllApart(slabs) && NoDuplicates<Slab>(slabs)
    requires Holding(cache.layout, slabs, objects)
    ensures |objects| == SumCounts(slabs)
    decreases |slabs|
  {
    hide LayoutOk, Slab.Ok, OnGrid, Apart;
    if slabs == [] {
      assert objects == {};
    } else {
      var s, rest := slabs[0], slabs[1..];
      var held := s.CountsObjects(cache.layout);
      assert held <= objects;
      RestHolds(cache, s, rest, objects, held);
      CountsAdd(cache, rest, objects - held);
    }
  }

  lemma RestHolds(cache: Cache, s: Slab, rest: seq<Slab>, objects: set<nat>, held: set<nat>)
    requires LayoutOk(cache.layout) && AllOk(cache, [s] + rest) && AllApart([s] + rest) && s !in rest
    requires Holding(cache.layout, [s] + rest, objects)
    requires forall a: nat :: a in held <==> s.Holds(cache.layout, a)
    ensures Holding(cache.layout, rest, objects - held)
  {
    hide LayoutOk, Slab.Ok, OnGrid, Apart;
    assert forall t :: t in rest ==> t in [s] + rest;
    forall t | t in rest
      ensures HoldsOther(cache.layout, t, held)
    {
      HoldsElse(cache.layout, s, t, held);
    }
  }

  ghost predicate HoldsOther(layout: Layout, t: Slab, held: set<nat>)
    reads t
  {
    forall a: nat :: t.Holds(layout, a) ==> a !in held
  }

  lemma HoldsElse(layout: Layout, s: Slab, t: Slab, held: set<nat>)
    requires LayoutOk(layout) && s.Ok(layout) && t.Ok(layout) && Apart(s, t) && s != t
    requires forall a: nat :: a in held <==> s.Holds(layout, a)
    ensures HoldsOther(layout, t, held)
  {
    forall a: nat | a in held
      ensures !t.Holds(layout, a)
    {
      if t.Holds(layout, a) {
        OneOwner(layout, s, t, a);
      }
    }
  }

  /** The memory of a free slab holds no object. */
  lemma FirstOut(cache: Cache, free: seq<Slab>, partial: seq<Slab>, full: seq<Slab>, objects: set<nat>)
    requires LayoutOk(cache.layout) && free != [] && free[0] !in free[1..] && free[0].count == 0
    requires Shelf(cache, partial, 1, cache.layout.objects - 1)
    requires Shelf(cache, full, cache.layout.objects, cache.layout.objects)
    requires AllOk(cache, All(free, partial, full)) && Holding(cache.layout, All(free, partial, full), objects)
    ensures All(free, partial, full) == [free[0]] + All(free[1..], partial, full)
    ensures free[0] !in All(free[1..], partial, full) && AllOk(cache, All(free[1..], partial, full))
    ensures Holding(cache.layout, All(free[1..], partial, full), objects)
  {
    var s := free[0];
    assert free == [s] + free[1..];
    assert s in All(free, partial, full);
    forall a: nat
      ensures !s.Holds(cache.layout, a)
    {
      if s.Holds(cache.layout, a) {
        s.HoldsSome(cache.layout, a);
      }
    }
  }

  lemma ShelfPut(cache: Cache, q: seq<Slab>, low: nat, high: nat, s: Slab)
    requires NoDuplicates<Slab>(q) && s in q && Shelf(cache, Without<Slab>(q, s), low, high)
    requires s.Ok(cache.layout) && s.cache == cache && low <= s.count <= high
    ensures Shelf(cache, q, low, high)
  {
    WithoutFacts<Slab>(q, s);
  }

  lemma SameSelf(slabs: seq<Slab>)
    ensures SameSlabs(slabs, slabs)
  {
  }

  /** The slab moves to the front of the list before. */
  lemma MovedToFree(free: seq<Slab>, partial: seq<Slab>, full: seq<Slab>, s: Slab)
    requires s in partial
    ensures SameSlabs(All(free, partial, full), All([s] + free, Without<Slab>(partial, s), full))
    ensures |All(free, partial, full)| == |All([s] + free, Without<Slab>(partial, s), full)|
  {
    WithoutRest(partial, s);
    WithoutLength<Slab>(partial, s);
  }

  lemma MovedToPartial(free: seq<Slab>, partial: seq<Slab>, full: seq<Slab>, s: Slab)
    requires s in full
    ensures SameSlabs(All(free, partial, full), All(free, [s] + partial, Without<Slab>(full, s)))
    ensures |All(free, partial, full)| == |All(free, [s] + partial, Without<Slab>(full, s))|
  {
    WithoutRest(full, s);
    WithoutLength<Slab>(full, s);
  }

  lemma {:induction false} WithoutRest(q: seq<Slab>, s: Slab)
    ensures forall t :: t in q ==> t == s || t in Without<Slab>(q, s)
    ensures forall t :: t in Without<Slab>(q, s) ==> t in q
  {
    if q != [] {
      WithoutRest(q[1..], s);
      assert q == [q[0]] + q[1..];
    }
  }

  lemma AddedFirst(cache: Cache, full: seq<Slab>, slab: Slab)
    requires LayoutOk(cache.layout) && AllOk(cache, All([], [], full))
    requires Holding(cache.layout, All([], [], full), cache.objects)
    requires slab.Ok(cache.layout) && slab.cache == cache
    requires slab.freelist == Grid(slab.memory.FromAddress(), cache.layout.objectSize, cache.layout.objects)
    ensures var slabs := All([], [slab], full);
      && slabs == [slab] + All([], [], full) && slab in slabs
      && AllOk(cache, slabs) && Holding(cache.layout, slabs, cache.objects)
  {
    GridFacts(slab.memory.FromAddress(), cache.layout);
  }

  // ----- null as an object

  /** A page allocator over one zone from address 0, all of it free, of the size of one slab. */
  method OneSlabMemory(layout: Layout) returns (ram: Physical, ghost run: Contiguous)
    requires LayoutOk(layout) && layout.slabSize <= Pow2(MAX_ORDER + 12)
    ensures fresh(ram) && fresh(ram.zones) && ram.Valid()
    ensures FirstRun(ram.Worlds(), layout.slabSize, run) && run.FromAddress() == 0
  {
    hide BuddySpec.Ready, BuddySpec.FreePage, BuddySpec.Covered, Zone.Model, FirstRun, LayoutOk, Pow2;
    ghost var order := SlabOrder(layout);
    var zone := new Zone(0, layout.slabSize / 4096);
    var ok := FreeMemory(zone, 0, layout.slabSize);
    ram := new Physical([zone]);
    run := Run(0, 0, order);
    OneZone(zone, order);
    assert ram.Worlds() == [BuddyRuns.World(zone.Model(), zone.busy)];
  }

  lemma OneZone(zone: Zone, order: nat)
    requires zone.Valid() && zone.from == 0 && zone.pages == Pow2(order) && order <= MAX_ORDER
    requires forall p: nat :: PageInside(p, 0, Pow2(order + 12)) ==> BuddySpec.FreePage(zone.Model(), p)
    ensures FirstRun([BuddyRuns.World(zone.Model(), zone.busy)], Pow2(order + 12), Run(0, 0, order))
  {
    hide BuddySpec.FreePage, BuddySpec.Ready, Pow2;
    BlockBytes(order);
    WholeZoneRun(BuddyRuns.World(zone.Model(), zone.busy), order);
  }

  /** The size of a slab is that of a block of pages. */
  lemma SlabOrder(layout: Layout) returns (order: nat)
    requires LayoutOk(layout) && layout.slabSize <= Pow2(MAX_ORDER + 12)
    ensures layout.slabSize == Pow2(order + 12) == 4096 * Pow2(order) && order <= MAX_ORDER
    ensures layout.slabSize < U64
  {
    hide Pow2;
    var k: nat :| layout.slabSize == Pow2(k);
    Pow2Words();
    if k < 12 {
      Pow2StrictlyMonotone(k, 12);
    }
    if k > MAX_ORDER + 12 {
      Pow2StrictlyMonotone(MAX_ORDER + 12, k);
    }
    order := k - 12;
    BlockBytes(order);
  }

  /** A zone from address 0: whatever the layout, the first object of the first slab is null, so that
    * a success looks like a failure, and the object cannot be freed. */
  method NullAsObject(layout: Layout)
    returns (r: nat, ghost done: bool, freed: Freeing, ghost objects: set<nat>)
    requires LayoutOk(layout) && layout.slabSize <= Pow2(MAX_ORDER + 12)
    ensures done && r == 0 && freed == Refused && objects == {0}
  {
    hide *;
    ghost var run;
    var ram;
    ram, run := OneSlabMemory(layout);
    var blocks := new ControlBlocks();
    var cache := new Cache(layout, ram, blocks);
    cache.FirstIsNext(run);
    r, done := cache.Allocate();
    cache.OnlySlab();
    freed := cache.Free(0);
    objects := cache.objects;
  }
}
