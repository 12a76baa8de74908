/** The page allocator over all zones and its construction from the memory map:
  * `kernel/memory/src/lib.rs`.
  */
module Memory {
  import opened Buddy
  import opened BuddyRuns
  import opened BuddySpec
  import opened BuddyTheorems
  import opened MemoryMap
  import opened Numeric
  import opened Tiling
  import opened Wrappers

  class Zone {
    const freelist: BuddySystem
    const start: nat
    const end: nat

    constructor (pages: seq<Page>, offset: nat)
      requires forall i :: 0 <= i < |pages| ==> pages[i].link.owner == i && !pages[i].IsFree()
      ensures Valid() && start == offset && end == offset + |pages| && freelist.busy == {}
      ensures fresh(freelist) && freelist.pages == pages
      ensures fresh(freelist.repr - (set page | page in pages) - (set page | page in pages :: page.link))
      ensures forall p: nat :: !Covered(freelist.Model(), {}, p)
    {
      freelist := new BuddySystem(pages, offset);
      start := offset;
      end := offset + |pages|;
    }

    ghost predicate Valid()
      reads freelist.repr
    {
      freelist.Valid() && start == freelist.offset && end == start + |freelist.pages|
    }

    predicate Contains(page: nat) {
      start <= page < end
    }

    /** Frees a range of pages never managed before, in the largest blocks that fit. */
    method FreePageRange(from: nat, to: nat)
      requires Valid() && to < U64
      requires from < to ==> start <= from && to <= end
      requires forall p: nat :: from <= p < to ==> !Covered(freelist.Model(), freelist.busy, p)
      modifies freelist.repr
      ensures Valid() && freelist.busy == old(freelist.busy)
      ensures forall p: nat :: FreePage(freelist.Model(), p) <==> old(FreePage(freelist.Model(), p)) || from <= p < to
      ensures forall p: nat :: Covered(freelist.Model(), freelist.busy, p) <==>
        old(Covered(freelist.Model(), freelist.busy, p)) || from <= p < to
    {
      ghost var s, busy := freelist.Model(), freelist.busy;
      hide Ready, BuddySystem.Valid, BuddySystem.Model, FreeAt, Covered, Aligned;
      var index := from;
      while index < to
        invariant from <= index && (from < to ==> index <= to)
        invariant freelist.Valid() && freelist.busy == busy
        invariant forall p: nat :: FreePage(freelist.Model(), p) <==> FreePage(s, p) || (from <= p < to && p < index)
        invariant forall p: nat :: Covered(freelist.Model(), busy, p) <==>
          Covered(s, busy, p) || (from <= p < to && p < index)
      {
        var size := Ilog2(to - index);
        var align := Lsb(index);
        var order := Min(LEVELS - 1, Min(size, align - 1));
        index := FreeTile(index, to, order, size, align);
      }
    }

    /** One block of `free_page_range`. */
    method FreeTile(index: nat, to: nat, order: nat, ghost size: nat, ghost align: nat) returns (next: nat)
      requires Valid() && start <= index < to <= end
      requires align > 0 && HighestBit(to - index, size) && order == Min(LEVELS - 1, Min(size, align - 1))
      requires if index == 0 then align - 1 >= size else LowestBit(index, align - 1)
      requires forall p: nat :: index <= p < to ==> !Covered(freelist.Model(), freelist.busy, p)
      modifies freelist.repr
      ensures freelist.Valid() && freelist.busy == old(freelist.busy)
      ensures order == TileOrder(index, to - index, LEVELS - 1) && next == index + Pow2(order) <= to
      ensures forall p: nat :: FreePage(freelist.Model(), p) <==>
        old(FreePage(freelist.Model(), p)) || In(p, index, order)
      ensures forall p: nat :: Covered(freelist.Model(), freelist.busy, p) <==>
        old(Covered(freelist.Model(), freelist.busy, p)) || In(p, index, order)
    {
      hide Covered, Known;
      FloorLog2Unique(to - index, size);
      if index > 0 {
        ValuationUnique(index, align - 1);
      }
      TileFits(index, to, LEVELS - 1);
      ghost var s, busy := freelist.Model(), freelist.busy;
      assert BlockOk(s, index, order);
      assert MayFree(s, busy, index, order);
      freelist.FreePagesAtLevel(index, order);
      FreeNewPages(s, busy, index, order);
      next := index + Pow2(order);
    }
  }

  // ----- handing free memory over to a zone

  // The page size is 4096 bytes.

  function PageAddress(page: nat): nat {
    4096 * page
  }

  function AddressPage(address: nat): nat {
    address / 4096
  }

  /** Every byte of the page is free memory of this type. */
  ghost predicate PageOf(m: seq<MemoryRange>, p: nat, memtype: MemoryType) {
    forall a: nat :: PageAddress(p) <= a < PageAddress(p + 1) ==> At(m, a) == Some(Attributes(memtype, Free))
  }

  /** Every byte of the page is free memory, all of one type. */
  ghost predicate PageFree(m: seq<MemoryRange>, p: nat) {
    PageOf(m, p, Regular) || PageOf(m, p, NonRegular)
  }

  lemma OneType(m: seq<MemoryRange>, p: nat, memtype: MemoryType)
    requires PageOf(m, p, memtype)
    ensures PageFree(m, p)
  {
    match memtype
    case Regular =>
    case NonRegular =>
  }

  predicate IsFreeAt(m: seq<MemoryRange>, a: nat) {
    At(m, a).Some? && At(m, a).value.status == Free
  }

  predicate PageIn(r: MemoryRange, p: nat) {
    r.start <= PageAddress(p) && PageAddress(p + 1) <= r.end
  }

  /** The pages between the rounded ends are the pages inside. */
  lemma RoundedPages(x: nat, y: nat, p: nat)
    requires IsPow2(4096)
    ensures AddressPage(AlignUp(x, 4096)) <= p <==> x <= PageAddress(p)
    ensures p < AddressPage(AlignDown(y, 4096)) <==> PageAddress(p + 1) <= y
  {
    AlignUpLeast(x, 4096, PageAddress(p));
    AlignDownGreatest(y, 4096, PageAddress(p + 1));
  }

  /** The page lies in the part inside the limit of one of the first `n` free ranges. */
  ghost predicate Yielded(m: seq<MemoryRange>, start: nat, end: nat, n: nat, p: nat)
    requires n <= |m|
  {
    exists k :: 0 <= k < n && YieldedBy(m[k], start, end, p)
  }

  predicate YieldedBy(r: MemoryRange, start: nat, end: nat, p: nat) {
    r.attributes.status == Free && PageIn(r, p) && start <= PageAddress(p) && PageAddress(p + 1) <= end
  }

  /** A page inside the limit is yielded exactly when it is free. */
  lemma YieldedIsFree(m: seq<MemoryRange>, start: nat, end: nat, p: nat)
    requires WellFormed(m)
    ensures Yielded(m, start, end, |m|, p) <==>
      start <= PageAddress(p) && PageAddress(p + 1) <= end && PageFree(m, p)
  {
    if Yielded(m, start, end, |m|, p) {
      var k :| 0 <= k < |m| && YieldedBy(m[k], start, end, p);
      forall a: nat | PageAddress(p) <= a < PageAddress(p + 1)
        ensures At(m, a) == Some(m[k].attributes)
      {
        AtInside(m, k, a);
      }
      OneType(m, p, m[k].attributes.memtype);
    }
    if start <= PageAddress(p) && PageAddress(p + 1) <= end && PageFree(m, p) {
      var memtype := if PageOf(m, p, Regular) then Regular else NonRegular;
      var i := RunInOneRange(m, PageAddress(p), 4096, Attributes(memtype, Free));
      assert YieldedBy(m[i], start, end, p);
    }
  }

  /** Ranges are disjoint, so a page of the next one was not yielded yet. */
  lemma YieldedOnce(m: seq<MemoryRange>, start: nat, end: nat, n: nat, p: nat)
    requires WellFormed(m) && n < |m| && YieldedBy(m[n], start, end, p)
    ensures !Yielded(m, start, end, n, p)
  {
    forall k | 0 <= k < n
      ensures !YieldedBy(m[k], start, end, p)
    {
      assert m[k].end <= m[n].start;
    }
  }

  lemma YieldedMore(m: seq<MemoryRange>, start: nat, end: nat, n: nat, n': nat, p: nat)
    requires n < n' <= |m|
    requires forall k :: n <= k < n' - 1 ==> !YieldedBy(m[k], start, end, p)
    ensures Yielded(m, start, end, n', p) <==> Yielded(m, start, end, n, p) || YieldedBy(m[n' - 1], start, end, p)
  {
    if Yielded(m, start, end, n, p) {
      var k :| 0 <= k < n && YieldedBy(m[k], start, end, p);
      assert YieldedBy(m[k], start, end, p);
    }
  }

  /** The free pages of the zone are those the first `n` ranges yield. */
  ghost predicate HandedOver(zone: Zone, m: seq<MemoryRange>, n: nat)
    requires n <= |m|
    reads zone.freelist.repr
  {
    && zone.Valid() && zone.freelist.busy == {}
    && forall p: nat :: FreePage(zone.freelist.Model(), p) <==>
         Yielded(m, PageAddress(zone.start), PageAddress(zone.end), n, p)
  }

  lemma NothingYet(zone: Zone, m: seq<MemoryRange>)
    requires zone.Valid() && zone.freelist.busy == {}
    requires forall p: nat :: !Covered(zone.freelist.Model(), {}, p)
    ensures HandedOver(zone, m, 0)
  {
  }

  /** The loop of `Memory::new` over the free memory of one zone: exactly the pages that
    * are free memory byte by byte, all of one type, go on the free lists. */
  method FreeZone(zone: Zone, m: seq<MemoryRange>)
    requires zone.Valid() && zone.freelist.busy == {} && WellFormed(m) && PageAddress(zone.end) < U64
    requires forall p: nat :: !Covered(zone.freelist.Model(), {}, p)
    modifies zone.freelist.repr
    ensures zone.Valid() && zone.freelist.busy == {}
    ensures forall p: nat :: FreePage(zone.freelist.Model(), p) <==> zone.Contains(p) && PageFree(m, p)
  {
    hide HandedOver, WellFormed, ClipYields, Clip, BuddySystem.Model, FreePage, PageFree, Covered;
    NothingYet(zone, m);
    var it := new FreeMemoryIter(m, PageAddress(zone.start), PageAddress(zone.end));
    while true
      invariant it.inner == m && it.start == PageAddress(zone.start) && it.end == PageAddress(zone.end)
      invariant it.next <= |m| && it !in zone.freelist.repr && HandedOver(zone, m, it.next)
      decreases |m| - it.next
    {
      ghost var n := it.next;
      var mem := it.Next();
      if mem == None {
        HandOverDone(zone, m, n);
        return;
      }
      FreeClip(zone, m, n, it.next, mem.value);
    }
  }

  /** The pages wholly inside one range go on the free lists. */
  method FreeClip(zone: Zone, ghost m: seq<MemoryRange>, ghost n: nat, ghost n': nat, mem: MemoryRange)
    requires n < n' <= |m| && HandedOver(zone, m, n) && WellFormed(m) && PageAddress(zone.end) < U64
    requires forall k :: n <= k < n' - 1 ==> !ClipYields(m[k], PageAddress(zone.start), PageAddress(zone.end))
    requires ClipYields(m[n' - 1], PageAddress(zone.start), PageAddress(zone.end))
    requires mem == Clip(m[n' - 1], PageAddress(zone.start), PageAddress(zone.end))
    modifies zone.freelist.repr
    ensures HandedOver(zone, m, n')
  {
    ghost var s := zone.freelist.Model();
    assert forall p: nat :: FreePage(s, p) == Covered(s, {}, p);
    hide BuddySystem.Valid, BuddySystem.Model, Ready, Covered, Yielded, WellFormed, Clip, ClipYields;
    PageSizePow2();
    var from := AddressPage(AlignUp(mem.start, 4096));
    var to := AddressPage(AlignDown(mem.end, 4096));
    NextRange(m, zone.start, zone.end, n, n', mem, from, to);
    hide AlignUp, AlignDown, PageAddress, AddressPage;
    assert forall p: nat :: from <= p < to ==> !FreePage(s, p) && !Covered(s, {}, p);
    zone.FreePageRange(from, to);
  }

  /** What the iterator skipped yields nothing, and the next range yields the rounded pages. */
  lemma NextRange(m: seq<MemoryRange>, first: nat, last: nat, n: nat, n': nat, mem: MemoryRange, from: nat, to: nat)
    requires WellFormed(m) && n < n' <= |m| && PageAddress(last) < U64 && IsPow2(4096)
    requires forall k :: n <= k < n' - 1 ==> !ClipYields(m[k], PageAddress(first), PageAddress(last))
    requires ClipYields(m[n' - 1], PageAddress(first), PageAddress(last))
    requires mem == Clip(m[n' - 1], PageAddress(first), PageAddress(last))
    requires from == AddressPage(AlignUp(mem.start, 4096)) && to == AddressPage(AlignDown(mem.end, 4096))
    ensures to < U64 && (from < to ==> first <= from && to <= last)
    ensures forall p: nat :: from <= p < to ==> !Yielded(m, PageAddress(first), PageAddress(last), n, p)
    ensures forall p: nat :: Yielded(m, PageAddress(first), PageAddress(last), n', p) <==>
      Yielded(m, PageAddress(first), PageAddress(last), n, p) || from <= p < to
  {
    var start, end := PageAddress(first), PageAddress(last);
    forall p: nat
      ensures from <= p < to <==> YieldedBy(m[n' - 1], start, end, p)
      ensures from <= p < to ==> !Yielded(m, start, end, n, p)
      ensures Yielded(m, start, end, n', p) <==> Yielded(m, start, end, n, p) || from <= p < to
    {
      RoundedPages(mem.start, mem.end, p);
      YieldedMore(m, start, end, n, n', p);
      if YieldedBy(m[n' - 1], start, end, p) {
        YieldedOnce(m, start, end, n' - 1, p);
      }
    }
    if from < to {
      assert YieldedBy(m[n' - 1], start, end, from) && YieldedBy(m[n' - 1], start, end, to - 1);
    }
  }

  lemma NothingMore(m: seq<MemoryRange>, start: nat, end: nat, n: nat, p: nat)
    requires n <= |m| && forall k :: n <= k < |m| ==> !ClipYields(m[k], start, end)
    ensures Yielded(m, start, end, |m|, p) <==> Yielded(m, start, end, n, p)
  {
    if Yielded(m, start, end, |m|, p) {
      var k :| 0 <= k < |m| && YieldedBy(m[k], start, end, p);
      assert k >= n ==> ClipYields(m[k], start, end);
    }
    if Yielded(m, start, end, n, p) {
      var k :| 0 <= k < n && YieldedBy(m[k], start, end, p);
      assert YieldedBy(m[k], start, end, p);
    }
  }

  lemma HandOverDone(zone: Zone, m: seq<MemoryRange>, n: nat)
    requires WellFormed(m) && n <= |m| && HandedOver(zone, m, n)
    requires forall k :: n <= k < |m| ==> !ClipYields(m[k], PageAddress(zone.start), PageAddress(zone.end))
    ensures zone.Valid() && zone.freelist.busy == {}
    ensures forall p: nat :: FreePage(zone.freelist.Model(), p) <==> zone.Contains(p) && PageFree(m, p)
  {
    hide PageFree, FreePage, Yielded;
    forall p: nat
      ensures FreePage(zone.freelist.Model(), p) <==> zone.Contains(p) && PageFree(m, p)
    {
      NothingMore(m, PageAddress(zone.start), PageAddress(zone.end), n, p);
      YieldedIsFree(m, PageAddress(zone.start), PageAddress(zone.end), p);
    }
  }

  // ----- all zones

  class Memory {
    const zones: seq<Zone>
    /** The memory map whose free pages were handed over. */
    ghost const handed: seq<MemoryRange>

    constructor (zones: seq<Zone>, ghost handed: seq<MemoryRange>)
      ensures this.zones == zones && this.handed == handed
    {
      this.zones := zones;
      this.handed := handed;
    }

    ghost function Repr(): set<object> {
      set k, o | 0 <= k < |zones| && o in zones[k].freelist.repr :: o
    }

    lemma InRepr(k: nat)
      requires k < |zones|
      ensures zones[k].freelist.repr <= Repr()
    {
    }

    /** What the zones store, with the blocks they have out. */
    ghost function Worlds(): (r: seq<World>)
      requires Separate(zones)
      reads Repr()
      ensures |r| == |zones|
      ensures forall k :: 0 <= k < |zones| ==> r[k] == World(zones[k].freelist.Model(), zones[k].freelist.busy)
    {
      seq(|zones|, k requires 0 <= k < |zones| && Separate(zones) reads Repr() =>
        InRepr(k);
        World(zones[k].freelist.Model(), zones[k].freelist.busy))
    }

    /** The pages the zone accounts for are its pages that are free in the map. */
    ghost predicate ZoneOk(k: nat)
      requires k < |zones| && Separate(zones)
      reads zones[k].freelist.repr
    {
      && zones[k].Valid()
      && forall p: nat :: Covered(zones[k].freelist.Model(), zones[k].freelist.busy, p) <==>
           zones[k].Contains(p) && PageFree(handed, p)
    }

    ghost predicate Valid()
      reads Repr()
    {
      && Separate(zones)
      && forall k :: 0 <= k < |zones| ==> ZoneOk(k)
    }

    method AllocateIn(i: nat, order: nat) returns (r: Option<nat>)
      requires Valid() && i < |zones|
      modifies zones[i].freelist.repr
      ensures Valid()
      ensures Ready(old(Worlds())[i].s, old(Worlds())[i].busy)
      ensures Worlds() == old(Worlds())[i := Step(old(Worlds())[i], Allocation(order))]
      ensures r.Some? <==> CanAllocate(old(Worlds())[i].s, order)
      ensures r.Some? ==> r.value == Chosen(old(Worlds())[i].s, order) && HandsOut(r.value, order)
    {
      hide BuddySystem.Model, BuddySystem.Valid, Managed, Memory.Repr, Memory.Worlds, Memory.ZoneOk,
        MemoryRange.Contains, PageFree, Ready, Shape, Step, Zone.Contains, CanAllocate, Chosen, HandsOut;
      ghost var w := Worlds()[i];
      ZoneParts(i, w);
      r := AllocateInZone(zones[i], w, order);
      ZoneWhole(i, Worlds()[i]);
      if r.Some? {
        AllocatedIsHanded(w, order);
      }
      assert Worlds() == old(Worlds())[i := Step(w, Allocation(order))];
    }

    lemma AllocatedIsHanded(w: World, order: nat)
      requires Ready(w.s, w.busy) && CanAllocate(w.s, order)
      requires forall p: nat :: Managed(w, p) ==> PageFree(handed, p)
      ensures HandsOut(Chosen(w.s, order), order)
    {
      AllocatedWasFree(w.s, w.busy, order);
      forall p: nat | In(p, Chosen(w.s, order), order)
        ensures PageFree(handed, p)
      {
        assert w.busy + {} == w.busy;
        FreeOrOut(w.s, w.busy, p);
        assert Managed(w, p);
      }
    }

    /** An aligned block of pages that are all free in the map. */
    ghost predicate HandsOut(page: nat, order: nat) {
      Aligned(page, order) && forall p: nat :: In(p, page, order) ==> PageFree(handed, p)
    }

    /** Tries the zones in order; `k` is the first zone that has a block. */
    method AllocatePages(order: nat) returns (r: Option<nat>, ghost k: nat)
      requires Valid()
      modifies Repr()
      ensures Valid()
      ensures r == None ==> Worlds() == old(Worlds())
      ensures r == None ==> forall j :: 0 <= j < |zones| ==> !CanAllocate(old(Worlds())[j].s, order)
      ensures r.Some? ==>
        && k < |zones| && CanAllocate(old(Worlds())[k].s, order)
        && (forall j :: 0 <= j < k ==> !CanAllocate(old(Worlds())[j].s, order))
        && r.value == 4096 * Chosen(old(Worlds())[k].s, order)
        && HandsOut(Chosen(old(Worlds())[k].s, order), order)
      ensures r.Some? ==>
        && Ready(old(Worlds())[k].s, old(Worlds())[k].busy)
        && Worlds() == old(Worlds())[k := Step(old(Worlds())[k], Allocation(order))]
    {
      k := 0;
      hide ZoneOk, Ready, Step, CanAllocate, HandsOut, Repr, Memory.Valid;
      for i := 0 to |zones|
        invariant Valid()
        invariant forall j :: 0 <= j < i ==> !CanAllocate(old(Worlds())[j].s, order)
        invariant Worlds() == old(Worlds())
      {
        var index := AllocateIn(i, order);
        if index.Some? {
          k := i;
          return Some(PageAddress(index.value)), k;
        }
      }
      return None, k;
    }

    /** Frees a block that is out; the source panics when no zone has the address. */
    method FreePages(address: nat, ghost k: nat)
      requires Valid() && k < |zones| && address % 4096 == 0
      requires Outstanding(Worlds()[k], address / 4096)
      modifies Repr()
      ensures Valid()
      ensures Ready(old(Worlds())[k].s, old(Worlds())[k].busy)
        && Legal(old(Worlds())[k], Release(address / 4096))
      ensures Worlds() == old(Worlds())[k := Step(old(Worlds())[k], Release(address / 4096))]
    {
      var page := AddressPage(address);
      assert ZoneOk(k);
      OutstandingLegal(Worlds()[k], page);
      hide ZoneOk, Ready, Step, Legal, Memory.Valid, Outstanding;
      for i := 0 to |zones|
        invariant Valid() && Worlds() == old(Worlds()) && i <= k
      {
        if zones[i].Contains(page) {
          FreeIn(i, page);
          return;
        }
      }
      assert false;
    }

    method FreeIn(i: nat, page: nat)
      requires Valid() && i < |zones| && Outstanding(Worlds()[i], page)
      modifies zones[i].freelist.repr
      ensures Valid()
      ensures Ready(old(Worlds())[i].s, old(Worlds())[i].busy) && Legal(old(Worlds())[i], Release(page))
      ensures Worlds() == old(Worlds())[i := Step(old(Worlds())[i], Release(page))]
    {
      hide BuddySystem.Model, BuddySystem.Valid, Legal, Managed, Memory.Repr, Memory.Worlds, Memory.ZoneOk,
        MemoryRange.Contains, Outstanding, PageFree, Ready, Shape, Step, Zone.Contains;
      ghost var w := Worlds()[i];
      ZoneParts(i, w);
      FreeInZone(zones[i], w, page);
      ZoneWhole(i, Worlds()[i]);
      assert Worlds() == old(Worlds())[i := Step(w, Release(page))];
    }

    lemma ZoneParts(k: nat, w: World)
      requires k < |zones| && Separate(zones) && ZoneOk(k)
      requires w == World(zones[k].freelist.Model(), zones[k].freelist.busy)
      ensures zones[k].Valid() && forall p: nat :: Managed(w, p) <==> zones[k].Contains(p) && PageFree(handed, p)
    {
    }

    lemma ZoneWhole(k: nat, w: World)
      requires k < |zones| && Separate(zones) && zones[k].Valid()
      requires w == World(zones[k].freelist.Model(), zones[k].freelist.busy)
      requires forall p: nat :: Managed(w, p) <==> zones[k].Contains(p) && PageFree(handed, p)
      ensures ZoneOk(k)
    {
      assert forall p: nat :: Managed(w, p) <==> Covered(w.s, w.busy, p);
    }
  }

  method AllocateInZone(zone: Zone, ghost w: World, order: nat) returns (r: Option<nat>)
    requires zone.Valid() && w == World(zone.freelist.Model(), zone.freelist.busy)
    modifies zone.freelist.repr
    ensures zone.Valid() && Ready(w.s, w.busy)
    ensures World(zone.freelist.Model(), zone.freelist.busy) == Step(w, Allocation(order))
    ensures forall p: nat :: Managed(Step(w, Allocation(order)), p) <==> Managed(w, p)
    ensures r.Some? <==> CanAllocate(w.s, order)
    ensures r.Some? ==> r.value == Chosen(w.s, order)
  {
    AllocationKeepsPages(w, order);
    hide Ready, Covered, Managed, BuddySystem.Valid, BuddySystem.Model, Allocate, CanAllocate, Chosen;
    r := zone.freelist.AllocatePages(order);
  }

  lemma AllocationKeepsPages(w: World, order: nat)
    requires Ready(w.s, w.busy)
    ensures forall p: nat :: Managed(Step(w, Allocation(order)), p) <==> Managed(w, p)
  {
    forall p: nat
      ensures Managed(Step(w, Allocation(order)), p) <==> Managed(w, p)
    {
      StepPages(w, Allocation(order), p);
    }
  }

  method FreeInZone(zone: Zone, ghost w: World, page: nat)
    requires zone.Valid() && w == World(zone.freelist.Model(), zone.freelist.busy) && Outstanding(w, page)
    modifies zone.freelist.repr
    ensures zone.Valid() && Ready(w.s, w.busy) && Legal(w, Release(page))
    ensures World(zone.freelist.Model(), zone.freelist.busy) == Step(w, Release(page))
    ensures forall p: nat :: Managed(Step(w, Release(page)), p) <==> Managed(w, p)
  {
    ReleaseKeepsPages(w, page);
    hide Ready, Covered, Managed, BuddySystem.Valid, BuddySystem.Model, FreeAt, MayFree, Outstanding, Step, Legal;
    zone.freelist.FreePages(page);
  }

  /** A block with this first page is out. */
  ghost predicate Outstanding(w: World, page: nat) {
    exists l: nat :: Block(page, l) in w.busy
  }

  lemma OutstandingLegal(w: World, page: nat)
    requires Ready(w.s, w.busy) && Outstanding(w, page)
    ensures InZone(w.s, page) && Block(page, LevelOf(w.s, page)) in w.busy && Legal(w, Release(page))
  {
    var l: nat :| Block(page, l) in w.busy;
    assert w.busy + {} == w.busy;
  }

  /** Releasing a block that is out leaves the managed pages as they were. */
  lemma ReleaseKeepsPages(w: World, page: nat)
    requires Ready(w.s, w.busy) && Outstanding(w, page)
    ensures InZone(w.s, page) && MayFree(w.s, w.busy, page, LevelOf(w.s, page)) && Legal(w, Release(page))
    ensures BlockOk(w.s, page, LevelOf(w.s, page))
    ensures Step(w, Release(page)) ==
      World(FreeAt(w.s, page, LevelOf(w.s, page)), w.busy - {Block(page, LevelOf(w.s, page))})
    ensures forall p: nat :: Managed(Step(w, Release(page)), p) <==> Managed(w, p)
  {
    OutstandingLegal(w, page);
    var l := LevelOf(w.s, page);
    assert Known(w.s, w.busy, page, l);
    forall p: nat
      ensures Managed(Step(w, Release(page)), p) <==> Managed(w, p)
    {
      StepPages(w, Release(page), p);
      assert In(p, page, l) ==> Covered(w.s, w.busy, p);
    }
  }

  /** The zones are well built and no two share an object or a page. */
  ghost predicate Separate(zones: seq<Zone>) {
    && (forall k :: 0 <= k < |zones| ==> zones[k].freelist.Wired())
    && forall j, k :: 0 <= j < |zones| && 0 <= k < |zones| && j != k ==>
         && zones[j].freelist.repr !! zones[k].freelist.repr
         && (zones[j].end <= zones[k].start || zones[k].end <= zones[j].start)
  }

  // ----- construction at boot

  /** Zeroed page descriptors. */
  method NewPages(n: nat) returns (pages: seq<Page>)
    ensures |pages| == n
    ensures forall i :: 0 <= i < n ==>
      fresh(pages[i]) && fresh(pages[i].link) && pages[i].link.owner == i && !pages[i].IsFree()
  {
    pages := [];
    while |pages| < n
      invariant |pages| <= n
      invariant forall i :: 0 <= i < |pages| ==>
        fresh(pages[i]) && fresh(pages[i].link) && pages[i].link.owner == i && !pages[i].IsFree()
    {
      var page := new Page(|pages|);
      pages := pages + [page];
    }
  }

  // The pages of a zone lie wholly inside the memory of the zone.

  function FirstPage(z: MemoryRange): nat {
    PageSizePow2();
    AddressPage(AlignUp(z.start, 4096))
  }

  function EndPage(z: MemoryRange): nat {
    PageSizePow2();
    AddressPage(AlignDown(z.end, 4096))
  }

  /** The bytes of an array of page descriptors. */
  function ArrayBytes(pages: int, descriptor: nat): nat {
    if pages < 0 then 0 else pages * descriptor
  }

  ghost predicate InAny(own: seq<MemoryRange>, a: nat) {
    exists k :: 0 <= k < |own| && own[k].Contains(a)
  }

  /** `m` is `m0` with the ranges `own`, which were free regular memory and do not overlap, reserved. */
  ghost predicate SetAside(m0: seq<MemoryRange>, own: seq<MemoryRange>, m: seq<MemoryRange>) {
    && WellFormed(m)
    && (forall a: nat :: At(m, a) == if InAny(own, a) then Some(Attributes(Regular, Reserved)) else At(m0, a))
    && (forall a: nat :: InAny(own, a) ==> At(m0, a) == Some(FREE_MEMORY))
    && (forall j, k :: 0 <= j < k < |own| ==> forall a: nat :: !(own[j].Contains(a) && own[k].Contains(a)))
  }

  /** One more allocation. */
  lemma SetAsideMore(m0: seq<MemoryRange>, own: seq<MemoryRange>, m: seq<MemoryRange>, r: MemoryRange,
                     m': seq<MemoryRange>)
    requires SetAside(m0, own, m) && Added(m, r, m') && r.attributes == Attributes(Regular, Reserved)
    requires forall a: nat :: r.Contains(a) ==> At(m, a) == Some(FREE_MEMORY)
    ensures SetAside(m0, own + [r], m')
  {
    var own' := own + [r];
    forall a: nat
      ensures InAny(own', a) <==> InAny(own, a) || r.Contains(a)
      ensures At(m', a) == if InAny(own', a) then Some(Attributes(Regular, Reserved)) else At(m0, a)
      ensures InAny(own', a) ==> At(m0, a) == Some(FREE_MEMORY)
    {
      if InAny(own', a) {
        var k :| 0 <= k < |own'| && own'[k].Contains(a);
        assert k < |own| ==> own'[k] == own[k];
      }
      if InAny(own, a) {
        var k :| 0 <= k < |own| && own[k].Contains(a);
        assert own'[k] == own[k];
      }
      if r.Contains(a) {
        assert own'[|own|] == r;
      }
      assert At(m', a) == Overwritten(m, r, a);
    }
    forall j, k, a: nat | 0 <= j < k < |own'|
      ensures !(own'[j].Contains(a) && own'[k].Contains(a))
    {
      if k == |own| && own[j].Contains(a) {
        assert InAny(own, a);
      }
    }
  }

  /** A page that is free after the allocations was free before and overlaps none of them. */
  lemma FreeAfterSetAside(m0: seq<MemoryRange>, own: seq<MemoryRange>, m: seq<MemoryRange>)
    requires SetAside(m0, own, m)
    ensures forall p: nat :: PageFree(m, p) <==> PageFree(m0, p) && Untouched(own, p)
  {
    hide SetAside, At;
    forall p: nat
      ensures PageFree(m, p) <==> PageFree(m0, p) && Untouched(own, p)
    {
      PageOfAfter(m0, own, m, p, Regular);
      PageOfAfter(m0, own, m, p, NonRegular);
    }
  }

  lemma PageOfAfter(m0: seq<MemoryRange>, own: seq<MemoryRange>, m: seq<MemoryRange>, p: nat, memtype: MemoryType)
    requires SetAside(m0, own, m)
    ensures PageOf(m, p, memtype) <==> PageOf(m0, p, memtype) && Untouched(own, p)
  {
  }

  ghost predicate Below(m: seq<MemoryRange>, bound: nat) {
    forall a: nat :: At(m, a).Some? ==> a < bound
  }

  lemma BelowEnds(m: seq<MemoryRange>, bound: nat)
    requires WellFormed(m) && Below(m, bound)
    ensures forall i :: 0 <= i < |m| ==> m[i].end <= bound
  {
    forall i | 0 <= i < |m|
      ensures m[i].end <= bound
    {
      AtInside(m, i, m[i].end - 1);
    }
  }

  /** A zone with its descriptors zeroed and no page managed yet. */
  ghost predicate Pristine(zone: Zone)
    reads zone.freelist.repr
  {
    zone.Valid() && zone.freelist.busy == {} && forall p: nat :: !Covered(zone.freelist.Model(), {}, p)
  }

  /** The allocation of one array: free regular memory, reserved by the allocation. */
  ghost predicate Allocated(m: seq<MemoryRange>, r: MemoryRange, m': seq<MemoryRange>) {
    && r.attributes == Attributes(Regular, Reserved) && Added(m, r, m')
    && forall a: nat :: r.Contains(a) ==> At(m, a) == Some(FREE_MEMORY)
  }

  // ----- where the arrays go

  /** An array to be placed: preferably in the hint, anywhere if that has no room. */
  datatype Need = Need(start: nat, end: nat, size: nat)

  /** The array of zones. */
  function ZonesNeed(zones: nat, zoneSize: nat): Need {
    Need(0, 0xffff_ffff_ffff_ffff, zones * zoneSize)
  }

  /** The page descriptors of a zone. */
  function PagesNeed(z: MemoryRange, descriptor: nat): Need {
    PageSizePow2();
    Need(AlignUp(z.start, 4096), AlignDown(z.end, 4096), ArrayBytes(EndPage(z) - FirstPage(z), descriptor))
  }

  /** The arrays in the order in which they are placed. */
  function Needs(ranges: seq<MemoryRange>, zoneSize: nat, descriptor: nat): (r: seq<Need>)
    ensures |r| == |ranges| + 1
  {
    [ZonesNeed(|ranges|, zoneSize)] + seq(|ranges|, k requires 0 <= k < |ranges| => PagesNeed(ranges[k], descriptor))
  }

  /** The array goes to the least place that is free after the arrays in `own`. */
  ghost predicate Takes(m0: seq<MemoryRange>, own: seq<MemoryRange>, need: Need, r: MemoryRange) {
    && r == MemoryRange(r.start, r.start + need.size, Attributes(Regular, Reserved))
    && exists m :: SetAside(m0, own, m) && HintedFit(m, need.start, need.end, need.size, 4096, r.start)
  }

  /** After the arrays in `own` there is no place for this one. */
  ghost predicate Stuck(m0: seq<MemoryRange>, own: seq<MemoryRange>, need: Need) {
    exists m ::
      && SetAside(m0, own, m)
      && NoFit(m, need.start, need.end, need.size, 4096) && NoFit(m, 0, 0xffff_ffff_ffff_ffff, need.size, 4096)
  }

  /** The first arrays needed are in `own`. */
  ghost predicate Placed(m0: seq<MemoryRange>, needs: seq<Need>, own: seq<MemoryRange>) {
    && |own| <= |needs|
    && forall k :: 0 <= k < |own| ==> Takes(m0, own[..k], needs[k], own[k])
  }

  lemma PlacedMore(m0: seq<MemoryRange>, needs: seq<Need>, own: seq<MemoryRange>, r: MemoryRange)
    requires Placed(m0, needs, own) && |own| < |needs| && Takes(m0, own, needs[|own|], r)
    ensures Placed(m0, needs, own + [r])
  {
    forall k | 0 <= k < |own| + 1
      ensures Takes(m0, (own + [r])[..k], needs[k], (own + [r])[k])
    {
      assert (own + [r])[..k] == own[..k];
      assert own[..|own|] == own;
    }
  }

  lemma SetAsideUnique(m0: seq<MemoryRange>, own: seq<MemoryRange>, m: seq<MemoryRange>, m': seq<MemoryRange>)
    requires SetAside(m0, own, m) && SetAside(m0, own, m')
    ensures m == m'
  {
    MeaningDetermines(m, m');
  }

  /** The map and the sizes determine where the arrays go, and which one finds no place. */
  lemma {:induction false} PlacesDetermined(m0: seq<MemoryRange>, needs: seq<Need>,
                                            own: seq<MemoryRange>, own': seq<MemoryRange>)
    requires Placed(m0, needs, own) && Placed(m0, needs, own') && |own| <= |own'|
    ensures own == own'[..|own|]
    ensures |own| < |own'| ==> !Stuck(m0, own, needs[|own|])
  {
    if own != [] {
      var n := |own| - 1;
      assert forall k :: 0 <= k < n ==> own[..n][..k] == own[..k];
      PlacesDetermined(m0, needs, own[..n], own');
      assert Takes(m0, own[..n], needs[n], own[n]) && Takes(m0, own'[..n], needs[n], own'[n]);
      TakesUnique(m0, own[..n], needs[n], own[n], own'[n]);
      assert own == own[..n] + [own[n]] && own'[..|own|] == own'[..n] + [own'[n]];
    }
    if |own| < |own'| {
      assert Takes(m0, own'[..|own|], needs[|own|], own'[|own|]);
      TakesOrStuck(m0, own, needs[|own|], own'[|own|]);
    }
  }

  lemma TakesUnique(m0: seq<MemoryRange>, own: seq<MemoryRange>, need: Need, r: MemoryRange, r': MemoryRange)
    requires Takes(m0, own, need, r) && Takes(m0, own, need, r')
    ensures r == r'
  {
    var m :| SetAside(m0, own, m) && HintedFit(m, need.start, need.end, need.size, 4096, r.start);
    var m' :| SetAside(m0, own, m') && HintedFit(m', need.start, need.end, need.size, 4096, r'.start);
    SetAsideUnique(m0, own, m, m');
  }

  lemma TakesOrStuck(m0: seq<MemoryRange>, own: seq<MemoryRange>, need: Need, r: MemoryRange)
    requires Takes(m0, own, need, r)
    ensures !Stuck(m0, own, need)
  {
    var m :| SetAside(m0, own, m) && HintedFit(m, need.start, need.end, need.size, 4096, r.start);
    if Stuck(m0, own, need) {
      var m' :| SetAside(m0, own, m') && NoFit(m', need.start, need.end, need.size, 4096)
        && NoFit(m', 0, 0xffff_ffff_ffff_ffff, need.size, 4096);
      SetAsideUnique(m0, own, m, m');
    }
  }

  /** Takes an array of descriptors for the whole pages of a zone, in the zone itself if there is room. */
  method CreatePages(start: nat, end: nat, descriptor: nat, malloc: MemoryMap, ghost bound: nat)
    returns (r: Option<seq<Page>>, ghost own: MemoryRange)
    requires malloc.Valid() && start <= end < U64
    requires forall i :: 0 <= i < |malloc.memory| ==> malloc.memory[i].end <= bound
    requires bound + 4096 + ArrayBytes(AddressPage(end - start), descriptor) <= U64
    modifies malloc
    ensures malloc.Valid() && malloc.zones == old(malloc.zones)
    ensures var bytes := (end - start) / 4096 * descriptor;
      if r == None then
        && malloc.memory == old(malloc.memory)
        && NoFit(malloc.memory, start, end, bytes, 4096) && NoFit(malloc.memory, 0, 0xffff_ffff_ffff_ffff, bytes, 4096)
      else
        && own == MemoryRange(own.start, own.start + bytes, Attributes(Regular, Reserved))
        && HintedFit(old(malloc.memory), start, end, bytes, 4096, own.start)
        && Allocated(old(malloc.memory), own, malloc.memory)
    ensures r.Some? ==> |r.value| == (end - start) / 4096
    ensures r.Some? ==> forall i :: 0 <= i < |r.value| ==>
      fresh(r.value[i]) && fresh(r.value[i].link) && r.value[i].link.owner == i && !r.value[i].IsFree()
  {
    PageSizePow2();
    var pages := AddressPage(end - start);
    var bytes := ArrayBytes(pages, descriptor);
    NotMisled(malloc.memory, start, end, bytes, 4096, bound);
    NotMisled(malloc.memory, 0, 0xffff_ffff_ffff_ffff, bytes, 4096, bound);
    var address := malloc.AllocateWithHint(start, end, bytes, 4096);
    own := MemoryRange(0, 0, Attributes(Regular, Reserved));
    if address == None {
      return None, own;
    }
    own := MemoryRange(address.value, address.value + bytes, Attributes(Regular, Reserved));
    var created := NewPages(pages);
    return Some(created), own;
  }

  /** One round of the loop of `create_zones`; `None` stands for the panic of `unwrap`. */
  method CreateZone(z: MemoryRange, descriptor: nat, malloc: MemoryMap,
                    ghost m0: seq<MemoryRange>, ghost own: seq<MemoryRange>, ghost bound: nat)
    returns (zone: Option<Zone>, ghost own': seq<MemoryRange>)
    requires malloc.Valid() && SetAside(m0, own, malloc.memory) && FirstPage(z) <= EndPage(z) && z.end < U64
    requires forall i :: 0 <= i < |malloc.memory| ==> malloc.memory[i].end <= bound
    requires bound + 4096 + ArrayBytes(EndPage(z) - FirstPage(z), descriptor) <= U64
    modifies malloc
    ensures malloc.Valid() && malloc.zones == old(malloc.zones)
    ensures zone == None ==> own' == own && Stuck(m0, own, PagesNeed(z, descriptor))
    ensures zone.Some? ==>
      && Pristine(zone.value) && fresh(zone.value.freelist.repr)
      && zone.value.start == FirstPage(z) && zone.value.end == EndPage(z)
      && |own'| == |own| + 1 && own' == own + [own'[|own|]] && Takes(m0, own, PagesNeed(z, descriptor), own'[|own|])
      && SetAside(m0, own', malloc.memory)
  {
    hide SetAside, Allocated, HintedFit, NoFit, WellFormed, Takes, Stuck, BuddySystem.Valid, BuddySystem.Model, Covered;
    PageSizePow2();
    var start := AlignUp(z.start, 4096);
    var end := AlignDown(z.end, 4096);
    assert AddressPage(end - start) == EndPage(z) - FirstPage(z);
    ghost var was := malloc.memory;
    var pages, r := CreatePages(start, end, descriptor, malloc, bound);
    assert PagesNeed(z, descriptor) == Need(start, end, ArrayBytes(AddressPage(end - start), descriptor));
    if pages == None {
      StuckHere(m0, own, PagesNeed(z, descriptor), was);
      return None, own;
    }
    own' := own + [r];
    TakenHere(m0, own, PagesNeed(z, descriptor), was, r, malloc.memory);
    var created := new Zone(pages.value, AddressPage(start));
    zone := Some(created);
  }

  lemma TakenHere(m0: seq<MemoryRange>, own: seq<MemoryRange>, need: Need, m: seq<MemoryRange>, r: MemoryRange,
                  m': seq<MemoryRange>)
    requires SetAside(m0, own, m) && Allocated(m, r, m')
    requires r == MemoryRange(r.start, r.start + need.size, Attributes(Regular, Reserved))
    requires HintedFit(m, need.start, need.end, need.size, 4096, r.start)
    ensures Takes(m0, own, need, r) && SetAside(m0, own + [r], m')
  {
    SetAsideMore(m0, own, m, r, m');
  }

  lemma StuckHere(m0: seq<MemoryRange>, own: seq<MemoryRange>, need: Need, m: seq<MemoryRange>)
    requires SetAside(m0, own, m)
    requires NoFit(m, need.start, need.end, need.size, 4096) && NoFit(m, 0, 0xffff_ffff_ffff_ffff, need.size, 4096)
    ensures Stuck(m0, own, need)
  {
  }

  lemma SetAsideBelow(m0: seq<MemoryRange>, own: seq<MemoryRange>, m: seq<MemoryRange>, bound: nat)
    requires SetAside(m0, own, m) && Below(m0, bound)
    ensures Below(m, bound) && forall i :: 0 <= i < |m| ==> m[i].end <= bound
  {
    BelowEnds(m, bound);
  }

  lemma PagesInOrder(zones: seq<MemoryRange>, j: nat, k: nat)
    requires WellFormed(zones) && j < k < |zones|
    ensures EndPage(zones[j]) <= FirstPage(zones[k])
  {
    assert zones[j].end <= zones[k].start;
  }

  /** No zone shrinks below nothing when its ends are rounded, and sizes stay below the word size. */
  ghost predicate Bootable(mmap: MemoryMap, bound: nat, zoneSize: nat, descriptor: nat)
    reads mmap
  {
    && mmap.Valid() && Below(mmap.memory, bound) && Below(mmap.zones, bound)
    && bound + 4096 + |mmap.zones| * zoneSize <= U64
    && ZonesFit(mmap.zones, bound, descriptor)
  }

  ghost predicate ZonesFit(ranges: seq<MemoryRange>, bound: nat, descriptor: nat) {
    forall k :: 0 <= k < |ranges| ==>
      && FirstPage(ranges[k]) <= EndPage(ranges[k])
      && bound + 4096 + ArrayBytes(EndPage(ranges[k]) - FirstPage(ranges[k]), descriptor) <= U64
  }

  /** `k` created zones, one for each of the first zones of the map. */
  ghost predicate Created(zones: seq<Zone>, ranges: seq<MemoryRange>)
    requires |zones| <= |ranges|
  {
    forall k :: 0 <= k < |zones| ==> zones[k].start == FirstPage(ranges[k]) && zones[k].end == EndPage(ranges[k])
  }

  /** State of `create_zones` after a number of zones. */
  ghost predicate Booting(m0: seq<MemoryRange>, ranges: seq<MemoryRange>, bound: nat, zoneSize: nat, descriptor: nat,
                          malloc: MemoryMap, zones: seq<Zone>, own: seq<MemoryRange>)
    reads malloc
  {
    && malloc.Valid() && malloc.zones == ranges && Below(ranges, bound)
    && |own| == |zones| + 1 && SetAside(m0, own, malloc.memory) && Below(m0, bound) && bound + 4096 <= U64
    && |zones| <= |ranges| && Created(zones, ranges) && Separate(zones) && ZonesFit(ranges, bound, descriptor)
    && Placed(m0, Needs(ranges, zoneSize, descriptor), own)
  }

  /** The next array needed finds no place. */
  ghost predicate NoPlace(m0: seq<MemoryRange>, ranges: seq<MemoryRange>, zoneSize: nat, descriptor: nat,
                          own: seq<MemoryRange>) {
    var needs := Needs(ranges, zoneSize, descriptor);
    Placed(m0, needs, own) && |own| < |needs| && Stuck(m0, own, needs[|own|])
  }

  method CreateNext(m0: seq<MemoryRange>, ranges: seq<MemoryRange>, ghost zoneSize: nat, descriptor: nat,
                    malloc: MemoryMap, zones: seq<Zone>,
                    ghost bound: nat, ghost own: seq<MemoryRange>, ghost objects: set<object>)
    returns (r: Option<seq<Zone>>, ghost own': seq<MemoryRange>, ghost objects': set<object>)
    requires Booting(m0, ranges, bound, zoneSize, descriptor, malloc, zones, own) && |zones| < |ranges|
    requires AllPristine(zones, objects) && malloc !in objects
    modifies malloc
    ensures malloc.Valid() && malloc.zones == ranges
    ensures r == None ==> NoPlace(m0, ranges, zoneSize, descriptor, own')
    ensures r.Some? ==>
      && |r.value| == |zones| + 1 && Booting(m0, ranges, bound, zoneSize, descriptor, malloc, r.value, own')
      && AllPristine(r.value, objects') && malloc !in objects' && objects <= objects' && fresh(objects' - objects)
  {
    SetAsideBelow(m0, own, malloc.memory, bound);
    BelowEnds(ranges, bound);
    assert AllPristine(zones, objects);
    ghost var needs := Needs(ranges, zoneSize, descriptor);
    assert needs[|own|] == PagesNeed(ranges[|zones|], descriptor);
    var zone;
    zone, own' := CreateZone(ranges[|zones|], descriptor, malloc, m0, own, bound);
    objects' := objects;
    if zone == None {
      return None, own', objects';
    }
    PlacedMore(m0, needs, own, own'[|own|]);
    objects' := objects + zone.value.freelist.repr;
    SeparateMore(zones, zone.value, ranges, objects);
    r := Some(zones + [zone.value]);
    assert AllPristine(zones, objects);
  }

  /** The array of zones. */
  method AllocateZones(mmap: MemoryMap, zoneSize: nat, descriptor: nat, malloc: MemoryMap, ghost bound: nat)
    returns (ok: bool, ghost own: seq<MemoryRange>)
    requires Bootable(mmap, bound, zoneSize, descriptor)
    requires malloc != mmap && malloc.Valid()
    requires malloc.memory == mmap.memory && malloc.zones == mmap.zones
    modifies malloc
    ensures malloc.Valid() && malloc.zones == mmap.zones
    ensures !ok ==> NoPlace(mmap.memory, mmap.zones, zoneSize, descriptor, own)
    ensures ok ==> Booting(mmap.memory, mmap.zones, bound, zoneSize, descriptor, malloc, [], own)
  {
    PageSizePow2();
    own := [];
    SetAsideBelow(mmap.memory, [], mmap.memory, bound);
    ghost var needs := Needs(mmap.zones, zoneSize, descriptor);
    var size := |mmap.zones| * zoneSize;
    assert needs[0] == Need(0, 0xffff_ffff_ffff_ffff, size);
    NotMisled(malloc.memory, 0, 0xffff_ffff_ffff_ffff, size, 4096, bound);
    var place := malloc.Allocate(size, 4096);
    if place == None {
      return false, own;
    }
    ghost var header := MemoryRange(place.value, place.value + size, Attributes(Regular, Reserved));
    TakenHere(mmap.memory, [], needs[0], mmap.memory, header, malloc.memory);
    PlacedMore(mmap.memory, needs, [], header);
    return true, [] + [header];
  }

  method CreateZones(mmap: MemoryMap, zoneSize: nat, descriptor: nat, malloc: MemoryMap, ghost bound: nat)
    returns (zones: Option<seq<Zone>>, ghost own: seq<MemoryRange>, ghost objects: set<object>)
    requires Bootable(mmap, bound, zoneSize, descriptor)
    requires malloc != mmap && malloc.Valid()
    requires malloc.memory == mmap.memory && malloc.zones == mmap.zones
    modifies malloc
    ensures malloc.Valid() && malloc.zones == mmap.zones
    ensures zones == None ==> NoPlace(mmap.memory, mmap.zones, zoneSize, descriptor, own)
    ensures zones.Some? ==>
      && |zones.value| == |mmap.zones|
      && Booting(mmap.memory, mmap.zones, bound, zoneSize, descriptor, malloc, zones.value, own)
      && AllPristine(zones.value, objects) && fresh(objects)
  {
    var ok;
    ok, own := AllocateZones(mmap, zoneSize, descriptor, malloc, bound);
    objects := {};
    if !ok {
      return None, own, objects;
    }
    hide Booting, AllPristine;
    assert AllPristine([], objects);
    var created: seq<Zone> := [];
    while |created| < |mmap.zones|
      invariant |created| <= |mmap.zones| && malloc.Valid() && malloc.zones == mmap.zones
      invariant Booting(mmap.memory, mmap.zones, bound, zoneSize, descriptor, malloc, created, own)
      invariant AllPristine(created, objects) && fresh(objects) && malloc !in objects
    {
      zones, own, objects :=
        CreateNext(mmap.memory, mmap.zones, zoneSize, descriptor, malloc, created, bound, own, objects);
      if zones == None {
        return None, own, objects;
      }
      created := zones.value;
    }
    return Some(created), own, objects;
  }

  /** Zones made of the given objects, all still pristine. */
  ghost predicate AllPristine(zones: seq<Zone>, objects: set<object>)
    reads objects
  {
    && (forall k :: 0 <= k < |zones| ==> zones[k].freelist.repr <= objects)
    && forall k :: 0 <= k < |zones| ==> Pristine(zones[k])
  }

  lemma SeparateMore(zones: seq<Zone>, zone: Zone, ranges: seq<MemoryRange>, objects: set<object>)
    requires |zones| < |ranges| && WellFormed(ranges) && Created(zones, ranges) && Separate(zones)
    requires zone.start == FirstPage(ranges[|zones|]) && zone.end == EndPage(ranges[|zones|])
    requires zone.freelist.Wired() && zone.freelist.repr !! objects
    requires forall k :: 0 <= k < |zones| ==> zones[k].freelist.repr <= objects
    ensures Created(zones + [zone], ranges) && Separate(zones + [zone])
  {
    forall k | 0 <= k < |zones|
      ensures zones[k].freelist.repr !! zone.freelist.repr && zones[k].end <= zone.start
    {
      PagesInOrder(ranges, k, |zones|);
    }
  }

  /** Where the zones agree with the memory, a page of a zone is free exactly if all its bytes are. */
  lemma FreeByteByByte(m: seq<MemoryRange>, ranges: seq<MemoryRange>, k: nat, p: nat)
    requires WellFormed(ranges) && SameTypes(ranges, m) && k < |ranges|
    requires FirstPage(ranges[k]) <= p < EndPage(ranges[k])
    ensures PageFree(m, p) <==> forall a: nat :: PageAddress(p) <= a < PageAddress(p + 1) ==> IsFreeAt(m, a)
  {
    PageSizePow2();
    RoundedPages(ranges[k].start, ranges[k].end, p);
    forall a: nat | PageAddress(p) <= a < PageAddress(p + 1)
      ensures IsFreeAt(m, a) <==> At(m, a) == Some(Attributes(ranges[k].attributes.memtype, Free))
    {
      AtInside(ranges, k, a);
      assert TypeAt(ranges, a) == TypeAt(m, a);
    }
    if forall a: nat :: PageAddress(p) <= a < PageAddress(p + 1) ==> IsFreeAt(m, a) {
      OneType(m, p, ranges[k].attributes.memtype);
    }
  }

  /** The second half of `Memory::new`: every zone gets its free pages. */
  method FreeZones(zones: seq<Zone>, m: seq<MemoryRange>)
    requires Separate(zones) && WellFormed(m)
    requires forall k :: 0 <= k < |zones| ==> Pristine(zones[k]) && PageAddress(zones[k].end) < U64
    modifies set k, o | 0 <= k < |zones| && o in zones[k].freelist.repr :: o
    ensures forall k :: 0 <= k < |zones| ==> FullZone(zones[k], m)
  {
    hide FullZone;
    for i := 0 to |zones|
      invariant forall k :: 0 <= k < i ==> FullZone(zones[k], m)
      invariant forall k :: i <= k < |zones| ==> Pristine(zones[k])
    {
      FreeWholeZone(zones[i], m);
    }
  }

  method FreeWholeZone(zone: Zone, m: seq<MemoryRange>)
    requires Pristine(zone) && WellFormed(m) && PageAddress(zone.end) < U64
    modifies zone.freelist.repr
    ensures FullZone(zone, m)
  {
    FreeZone(zone, m);
  }

  method NewMemory(zones: seq<Zone>, ghost m: seq<MemoryRange>) returns (r: Option<Memory>)
    requires Separate(zones) && forall k :: 0 <= k < |zones| ==> FullZone(zones[k], m)
    ensures r.Some? && r.value.zones == zones && r.value.handed == m && r.value.Valid()
    ensures forall k :: 0 <= k < |zones| ==>
      && r.value.Worlds()[k].busy == {}
      && forall p: nat :: FreePage(r.value.Worlds()[k].s, p) <==> r.value.zones[k].Contains(p) && PageFree(m, p)
  {
    var memory := new Memory(zones, m);
    r := Some(memory);
    forall k | 0 <= k < |zones|
      ensures memory.ZoneOk(k)
    {
      assert FullZone(zones[k], m);
    }
  }

  /** `Memory::new`; `None` stands for the panic when an array finds no place.
    * The page size is 4096 bytes, `zoneSize` and `descriptor` are the sizes in bytes of a
    * zone and of a page descriptor.  Exactly the pages of each zone all of whose bytes are
    * free, of one type, and in none of the arrays the allocator took for itself can be allocated. */
  method New(mmap: MemoryMap, zoneSize: nat, descriptor: nat, ghost bound: nat)
    returns (r: Option<Memory>, ghost own: seq<MemoryRange>)
    requires Bootable(mmap, bound, zoneSize, descriptor)
    ensures r.Some? ==>
      && r.value.Valid() && fresh(r.value.Repr())
      && |r.value.zones| == |mmap.zones| && Created(r.value.zones, mmap.zones)
    ensures r.Some? ==> forall k, p: nat :: 0 <= k < |r.value.zones| ==>
      (r.value.zones[k].Contains(p) <==> mmap.zones[k].start <= 4096 * p && 4096 * (p + 1) <= mmap.zones[k].end)
    ensures Placed(mmap.memory, Needs(mmap.zones, zoneSize, descriptor), own)
    ensures r == None ==>
      |own| <= |mmap.zones| && Stuck(mmap.memory, own, Needs(mmap.zones, zoneSize, descriptor)[|own|])
    ensures r.Some? ==> |own| == |mmap.zones| + 1 && SetAside(mmap.memory, own, r.value.handed)
    ensures r.Some? ==> own[0].end == own[0].start + |mmap.zones| * zoneSize
    ensures r.Some? ==> forall k :: 0 <= k < |r.value.zones| ==>
      own[k + 1].end == own[k + 1].start + |r.value.zones[k].freelist.pages| * descriptor
    ensures r.Some? ==> forall k, i, a: nat ::
      0 <= k < |r.value.zones| && 0 <= i < |own| && own[i].Contains(a) ==>
      !FreePage(r.value.Worlds()[k].s, a / 4096)
    ensures r.Some? ==> forall k :: 0 <= k < |r.value.zones| ==>
      && r.value.Worlds()[k].busy == {}
      && forall p: nat :: FreePage(r.value.Worlds()[k].s, p) <==>
           r.value.zones[k].Contains(p) && PageFree(mmap.memory, p) && Untouched(own, p)
  {
    hide ArrayBytes, Below, Booting, BuddySystem.Model, BuddySystem.Valid, BuddySystem.Wired, Created, EndPage,
      FirstPage, FreePage, FullZone, InAny, Memory.Valid, Memory.Worlds, MemoryRange.Contains, Needs, PageAddress,
      PageFree, Placed, Pristine, SameTypes, Separate, SetAside, Shape, Stuck, Takes, Untouched, WellFormed,
      Zone.Contains, Zone.Valid;
    var malloc := new MemoryMap.Clone(mmap);
    var created;
    ghost var objects;
    created, own, objects := CreateZones(mmap, zoneSize, descriptor, malloc, bound);
    if created == None {
      return None, own;
    }
    BootedZones(mmap.memory, mmap.zones, bound, zoneSize, descriptor, malloc, created.value, own);
    assert forall k :: 0 <= k < |created.value| ==> Pristine(created.value[k]);
    ZonePages(created.value);
    ZoneInside(created.value, mmap.zones);
    FreeZones(created.value, malloc.memory);
    r := NewMemory(created.value, malloc.memory);
    FreeAfterSetAside(mmap.memory, own, malloc.memory);
    NoArrayIn(own);
    ArraySizes(mmap.memory, mmap.zones, zoneSize, descriptor, created.value, own);
  }

  /** The pages of a zone are those wholly inside its memory. */
  lemma ZoneInside(zones: seq<Zone>, ranges: seq<MemoryRange>)
    requires |zones| == |ranges| && Created(zones, ranges)
    ensures forall k, p: nat :: 0 <= k < |zones| ==>
      (zones[k].Contains(p) <==> ranges[k].start <= 4096 * p && 4096 * (p + 1) <= ranges[k].end)
  {
    PageSizePow2();
    forall k, p: nat | 0 <= k < |zones|
      ensures zones[k].Contains(p) <==> ranges[k].start <= 4096 * p && 4096 * (p + 1) <= ranges[k].end
    {
      RoundedPages(ranges[k].start, ranges[k].end, p);
    }
  }

  lemma ZonePages(zones: seq<Zone>)
    requires forall k :: 0 <= k < |zones| ==> Pristine(zones[k])
    ensures forall k :: 0 <= k < |zones| ==> zones[k].end == zones[k].start + |zones[k].freelist.pages|
  {
  }

  /** No byte of an array is in a page that the arrays do not touch. */
  lemma NoArrayIn(own: seq<MemoryRange>)
    ensures forall i, a: nat :: 0 <= i < |own| && own[i].Contains(a) ==> !Untouched(own, a / 4096)
  {
    forall i, a: nat | 0 <= i < |own| && own[i].Contains(a)
      ensures !Untouched(own, a / 4096)
    {
      assert InAny(own, a);
    }
  }

  /** The arrays hold one structure for each zone, and one for each page of a zone. */
  lemma ArraySizes(m0: seq<MemoryRange>, ranges: seq<MemoryRange>, zoneSize: nat, descriptor: nat,
                   zones: seq<Zone>, own: seq<MemoryRange>)
    requires Placed(m0, Needs(ranges, zoneSize, descriptor), own) && |own| == |zones| + 1 && |zones| == |ranges|
    requires Created(zones, ranges)
    requires forall k :: 0 <= k < |zones| ==> zones[k].end == zones[k].start + |zones[k].freelist.pages|
    ensures own[0].end == own[0].start + |ranges| * zoneSize
    ensures forall k :: 0 <= k < |zones| ==>
      own[k + 1].end == own[k + 1].start + |zones[k].freelist.pages| * descriptor
  {
    var needs := Needs(ranges, zoneSize, descriptor);
    assert Takes(m0, own[..0], needs[0], own[0]);
    forall k | 0 <= k < |zones|
      ensures own[k + 1].end == own[k + 1].start + |zones[k].freelist.pages| * descriptor
    {
      assert Takes(m0, own[..k + 1], needs[k + 1], own[k + 1]);
      assert needs[k + 1] == PagesNeed(ranges[k], descriptor);
    }
  }

  /** No byte of the page is in one of the ranges. */
  ghost predicate Untouched(own: seq<MemoryRange>, p: nat) {
    forall a: nat :: PageAddress(p) <= a < PageAddress(p + 1) ==> !InAny(own, a)
  }

  lemma BootedZones(m0: seq<MemoryRange>, ranges: seq<MemoryRange>, bound: nat, zoneSize: nat, descriptor: nat,
                    malloc: MemoryMap, zones: seq<Zone>, own: seq<MemoryRange>)
    requires Booting(m0, ranges, bound, zoneSize, descriptor, malloc, zones, own) && |zones| == |ranges|
    ensures WellFormed(malloc.memory) && Placed(m0, Needs(ranges, zoneSize, descriptor), own)
    ensures |own| == |zones| + 1 && SetAside(m0, own, malloc.memory) && Created(zones, ranges) && Separate(zones)
    ensures forall k :: 0 <= k < |zones| ==> PageAddress(zones[k].end) < U64
  {
    BelowEnds(ranges, bound);
    PageSizePow2();
    forall k | 0 <= k < |zones|
      ensures PageAddress(zones[k].end) < U64
    {
      assert PageAddress(EndPage(ranges[k])) <= ranges[k].end;
    }
  }

  /** Exactly the pages of the zone that are free in the map can be allocated. */
  ghost predicate FullZone(zone: Zone, m: seq<MemoryRange>)
    reads zone.freelist.repr
  {
    && zone.Valid() && zone.freelist.busy == {}
    && forall p: nat :: FreePage(zone.freelist.Model(), p) <==> zone.Contains(p) && PageFree(m, p)
  }

  // ----- memory that is not regular reaches the allocator

  /** Three pages of regular memory, then one page of other memory. */
  ghost predicate FourPages(m0: seq<MemoryRange>) {
    forall a: nat :: At(m0, a) ==
      if a < 12288 then Some(FREE_MEMORY) else if a < 16384 then Some(Attributes(NonRegular, Free)) else None
  }

  /** At most a page, at the start of a page of free regular memory. */
  ghost predicate InOnePage(r: MemoryRange) {
    && 0 < r.end - r.start <= 4096 && r.attributes == Attributes(Regular, Reserved)
    && (r.start == 0 || r.start == 4096 || r.start == 8192)
  }

  lemma TakesOnePage(m0: seq<MemoryRange>, own: seq<MemoryRange>, need: Need, r: MemoryRange)
    requires FourPages(m0) && Takes(m0, own, need, r) && 0 < need.size <= 4096
    ensures InOnePage(r)
  {
    var m :| SetAside(m0, own, m) && HintedFit(m, need.start, need.end, need.size, 4096, r.start);
    assert At(m, r.start) == Some(FREE_MEMORY) && At(m0, r.start) == Some(FREE_MEMORY);
    assert r.start % 4096 == 0 && r.start < 12288;
  }

  lemma Elsewhere(own: seq<MemoryRange>, x: nat, a: nat)
    requires x % 4096 == 0 && x <= a < x + 4096
    requires forall k :: 0 <= k < |own| ==> InOnePage(own[k]) && own[k].start != x
    ensures !InAny(own, a)
  {
  }

  /** Two arrays leave one of the three pages untouched. */
  lemma RoomForThree(m0: seq<MemoryRange>, own: seq<MemoryRange>, need: Need)
    requires FourPages(m0) && |own| <= 2 && forall k :: 0 <= k < |own| ==> InOnePage(own[k])
    requires 0 < need.size <= 4096
    ensures !Stuck(m0, own, need)
  {
    if Stuck(m0, own, need) {
      var m :| SetAside(m0, own, m) && NoFit(m, 0, 0xffff_ffff_ffff_ffff, need.size, 4096);
      var first := if |own| > 0 then own[0].start else 0;
      var second := if |own| > 1 then own[1].start else first;
      var x := if first != 0 && second != 0 then 0 else if first != 4096 && second != 4096 then 4096 else 8192;
      forall a: nat | x <= a < x + need.size
        ensures At(m, a) == Some(FREE_MEMORY)
      {
        Elsewhere(own, x, a);
      }
      NoFitAt(m, 0, 0xffff_ffff_ffff_ffff, need.size, 4096, x);
    }
  }

  /** Three arrays leave only the page that is not regular. */
  lemma OnlyTheOther(m0: seq<MemoryRange>, own: seq<MemoryRange>, m: seq<MemoryRange>)
    requires FourPages(m0) && SetAside(m0, own, m)
    requires |own| == 3 && InOnePage(own[0]) && InOnePage(own[1]) && InOnePage(own[2])
    ensures forall p: nat :: PageFree(m, p) <==> p == 3
    ensures PageOf(m, 3, NonRegular)
  {
    forall a: nat | 12288 <= a < 16384
      ensures At(m, a) == Some(Attributes(NonRegular, Free))
    {
      assert At(m0, a) != Some(FREE_MEMORY);
    }
    forall j, k | 0 <= j < k < 3
      ensures own[j].start != own[k].start
    {
      assert own[j].Contains(own[j].start);
    }
    forall p: nat | p != 3
      ensures !PageFree(m, p)
    {
      if p < 3 {
        var k := if own[0].start == 4096 * p then 0 else if own[1].start == 4096 * p then 1 else 2;
        assert own[k].start == 4096 * p && InAny(own, 4096 * p);
      }
      assert !IsFreeAt(m, PageAddress(p));
    }
  }

  method FourPageMap() returns (mmap: MemoryMap)
    ensures fresh(mmap) && mmap.Valid() && mmap.Agree() && FourPages(mmap.memory)
    ensures mmap.zones ==
      [MemoryRange(0, 12288, Attributes(Regular, Unknown)), MemoryRange(12288, 16384, Attributes(NonRegular, Unknown))]
  {
    mmap := new MemoryMap();
    var q, r := MemoryRange(0, 12288, FREE_MEMORY), MemoryRange(12288, 16384, Attributes(NonRegular, Free));
    var first := mmap.AddMemory(0, 12288, Regular);
    ghost var s, z := mmap.memory, mmap.zones;
    var second := mmap.AddMemory(12288, 16384, NonRegular);
    TwoAdditions(q, r, s, mmap.memory);
    TwoAdditions(ZoneOf(q), ZoneOf(r), z, mmap.zones);
    forall a: nat
      ensures At(mmap.memory, a) == if q.Contains(a) then Some(q.attributes)
        else if r.Contains(a) then Some(r.attributes) else None
      ensures TypeAt(mmap.zones, a) == TypeAt(mmap.memory, a)
    {
      AtTwo(q, r, a);
      AtTwo(ZoneOf(q), ZoneOf(r), a);
    }
  }

  lemma FourPageNeeds(ranges: seq<MemoryRange>, zoneSize: nat, descriptor: nat)
    requires 0 < 2 * zoneSize <= 4096 && 0 < 3 * descriptor <= 4096
    requires ranges ==
      [MemoryRange(0, 12288, Attributes(Regular, Unknown)), MemoryRange(12288, 16384, Attributes(NonRegular, Unknown))]
    ensures var needs := Needs(ranges, zoneSize, descriptor);
      |needs| == 3 && 0 < needs[0].size <= 4096 && 0 < needs[1].size <= 4096 && 0 < needs[2].size <= 4096
    ensures FirstPage(ranges[0]) == 0 && EndPage(ranges[0]) == 3
    ensures FirstPage(ranges[1]) == 3 && EndPage(ranges[1]) == 4
    ensures ZonesFit(ranges, 16384, descriptor) && Below(ranges, 16384)
  {
    var needs := Needs(ranges, zoneSize, descriptor);
    assert needs[0] == ZonesNeed(2, zoneSize);
    assert needs[1] == PagesNeed(ranges[0], descriptor) && needs[2] == PagesNeed(ranges[1], descriptor);
    forall a: nat
      ensures At(ranges, a).Some? ==> a < 16384
    {
      AtTwo(ranges[0], ranges[1], a);
    }
  }

  lemma OneFreePage(memory: Memory, page: nat)
    requires memory.HandsOut(page, 0) && forall p: nat :: PageFree(memory.handed, p) <==> p == 3
    ensures page == 3
  {
    assert In(page, page, 0);
  }

  /** A page that is free can be allocated. */
  lemma OnePageServed(memory: Memory, k: nat, page: nat)
    requires memory.Valid() && k < |memory.zones| && FreePage(memory.Worlds()[k].s, page)
    requires memory.zones[k].Contains(page)
    ensures Separate(memory.zones) && CanAllocate(memory.Worlds()[k].s, 0)
  {
    var w := memory.Worlds()[k];
    assert memory.ZoneOk(k);
    assert BlockOk(w.s, page, 0) && WhollyFree(w.s, page, 0);
    AllocationComplete(w.s, w.busy, 0);
  }

  lemma FourPagesPlaced(m0: seq<MemoryRange>, needs: seq<Need>, own: seq<MemoryRange>)
    requires FourPages(m0) && Placed(m0, needs, own) && |own| <= 3 && |needs| == 3
    requires 0 < needs[0].size <= 4096 && 0 < needs[1].size <= 4096 && 0 < needs[2].size <= 4096
    ensures forall k :: 0 <= k < |own| ==> InOnePage(own[k])
    ensures |own| < 3 ==> !Stuck(m0, own, needs[|own|])
  {
    assert forall k :: 0 <= k < 3 ==> 0 < needs[k].size <= 4096;
    forall k | 0 <= k < |own|
      ensures InOnePage(own[k])
    {
      TakesOnePage(m0, own[..k], needs[k], own[k]);
    }
    if |own| < 3 {
      RoomForThree(m0, own, needs[|own|]);
    }
  }

  lemma FourPagesBootable(mmap: MemoryMap, zoneSize: nat, descriptor: nat)
    requires mmap.Valid() && FourPages(mmap.memory) && 0 < 2 * zoneSize <= 4096 && 0 < 3 * descriptor <= 4096
    requires mmap.zones ==
      [MemoryRange(0, 12288, Attributes(Regular, Unknown)), MemoryRange(12288, 16384, Attributes(NonRegular, Unknown))]
    ensures Bootable(mmap, 16384, zoneSize, descriptor)
  {
    FourPageNeeds(mmap.zones, zoneSize, descriptor);
  }

  /** Booting succeeds, and only the page that is not regular is left. */
  method BootFourPages(zoneSize: nat, descriptor: nat) returns (memory: Memory, ghost m: seq<MemoryRange>)
    requires 0 < 2 * zoneSize <= 4096 && 0 < 3 * descriptor <= 4096
    ensures FourPages(m) && memory.Valid() && fresh(memory.Repr()) && |memory.zones| == 2
    ensures memory.zones[1].Contains(3) && FreePage(memory.Worlds()[1].s, 3)
    ensures forall p: nat :: PageFree(memory.handed, p) <==> p == 3
  {
    hide Bootable, FourPages, Placed, Stuck, SetAside, Memory.Valid, Memory.Worlds, Memory.Repr, FreePage, PageFree,
      Untouched, Separate, MemoryMap.Valid, MemoryMap.Agree, BuddySystem.Model, BuddySystem.Valid, Needs;
    var mmap := FourPageMap();
    m := mmap.memory;
    FourPageNeeds(mmap.zones, zoneSize, descriptor);
    FourPagesBootable(mmap, zoneSize, descriptor);
    var booted, own := New(mmap, zoneSize, descriptor, 16384);
    FourPagesPlaced(m, Needs(mmap.zones, zoneSize, descriptor), own);
    memory := booted.value;
    OnlyTheOther(m, own, memory.handed);
    FreeAfterSetAside(m, own, memory.handed);
  }

  /** The only free page is the one handed out. */
  method AllocateOnly(memory: Memory, ghost k: nat) returns (address: Option<nat>)
    requires memory.Valid() && k < |memory.zones| && memory.zones[k].Contains(3)
    requires FreePage(memory.Worlds()[k].s, 3) && forall p: nat :: PageFree(memory.handed, p) <==> p == 3
    modifies memory.Repr()
    ensures address == Some(12288)
  {
    hide FreePage, Memory.Valid, Memory.Worlds, Memory.Repr, PageFree, CanAllocate, Chosen, Memory.HandsOut, Ready,
      Separate, Step, AddressPage;
    OnePageServed(memory, k, 3);
    ghost var was, first := memory.Worlds(), 0;
    address, first := memory.AllocatePages(0);
    OneFreePage(memory, Chosen(was[first].s, 0));
  }

  /** A run of the code from an empty map: booting succeeds, and the first page handed out is
    * memory that is not regular. */
  method HandsOutNonRegular(zoneSize: nat, descriptor: nat) returns (address: Option<nat>, ghost m: seq<MemoryRange>)
    requires 0 < 2 * zoneSize <= 4096 && 0 < 3 * descriptor <= 4096
    ensures address == Some(12288) && At(m, 12288) == Some(Attributes(NonRegular, Free))
  {
    hide FreePage, Memory.Valid, Memory.Worlds, Memory.Repr, PageFree, Separate;
    var memory;
    memory, m := BootFourPages(zoneSize, descriptor);
    address := AllocateOnly(memory, 1);
  }

  /** The largest blocks are of level 19: a free aligned one in a zone is enough to be served. */
  lemma LargestBlock(zone: Zone, page: nat)
    requires zone.Valid() && page % 0x8_0000 == 0 && zone.start <= page && page + 0x8_0000 <= zone.end
    requires forall p: nat :: page <= p < page + 0x8_0000 ==> FreePage(zone.freelist.Model(), p)
    ensures CanAllocate(zone.freelist.Model(), 19)
    ensures forall order: nat :: order > 19 ==> !CanAllocate(zone.freelist.Model(), order)
  {
    hide Pow2, Ready, FreePage, Aligned;
    Pow2Of19();
    ServedWhole(zone.freelist.Model(), zone.freelist.busy, page, 19);
  }

  lemma Pow2Of19()
    ensures Pow2(19) == 0x8_0000
  {
    hide Pow2;
    Pow2Words();
    Pow2Small();
    Pow2Sum(16, 2);
    Pow2Sum(18, 1);
  }
}
