/** The page allocator of `memory/memory.cc`: the buddy algorithm of `BuddySpec` with one
  * more level, a counter of available pages, and sizes in bytes.
  */
module PhysicalMemory {
  import opened BuddyCount
  import opened BuddyRuns
  import opened BuddySpec
  import opened BuddyTheorems
  import opened Numeric
  import opened Sequences
  import opened Tiling
  import opened Wrappers

  const MAX_ORDER: nat := 20

  class Zone {
    const from: nat
    const pages: nat
    var order: seq<nat>
    var flags: seq<bool>
    var free: seq<seq<nat>>
    var available: nat
    ghost var busy: set<Block>

    /** The page descriptors start zeroed; `available_` is taken to start at 0. */
    constructor (from: nat, pages: nat)
      requires from % 4096 == 0
      ensures Valid() && busy == {} && available == 0 && this.from == from && this.pages == pages
      ensures forall p :: !Covered(Model(), busy, p)
    {
      this.from := from;
      this.pages := pages;
      order := seq(pages, _ => 0);
      flags := seq(pages, _ => false);
      free := seq(MAX_ORDER + 1, _ => []);
      available := 0;
      busy := {};
      new;
      EmptyReady(Model());
      EmptyTotal(free, MAX_ORDER + 1);
    }

    function Offset(): nat {
      from / 4096
    }

    function To(): nat {
      from + 4096 * pages
    }

    ghost function Model(): State
      reads this
    {
      State(Offset(), order, flags, free)
    }

    ghost predicate Shaped()
      reads this
    {
      |order| == |flags| == pages && |free| == MAX_ORDER + 1 && from % 4096 == 0
    }

    /** The counter always equals the number of pages on the free lists. */
    ghost predicate Valid()
      reads this
    {
      Shaped() && Ready(Model(), busy) && available == FreeTotal(Model())
    }

    method AllocatePages(wanted: nat) returns (r: Option<nat>)
      requires Valid()
      modifies this
      ensures Valid()
      ensures r.Some? <==> CanAllocate(old(Model()), wanted)
      ensures r == None ==> Model() == old(Model()) && busy == old(busy) && available == old(available)
      ensures r.Some? ==>
        && r.value == Chosen(old(Model()), wanted)
        && BlockOk(old(Model()), r.value, FirstLevel(old(Model()), wanted))
        && Model() == Allocate(old(Model()), wanted)
        && busy == old(busy) + {Block(r.value, wanted)}
        && available == old(available) - Pow2(wanted)
    {
      hide Ready, FreeTotal;
      ghost var s := Model();
      var level := wanted;
      while level <= MAX_ORDER
        invariant wanted <= level && FirstLevel(s, wanted) == FirstLevel(s, level)
        invariant unchanged(this)
      {
        if free[level] != [] {
          var page := free[level][0];
          ghost var was := available;
          PopReady(s, busy, level);
          AllocateInv(s, busy, wanted);
          TotalAllocate(s, busy, wanted);
          free := free[level := free[level][1..]];
          available := available - Pow2(wanted);
          Split(page, level, wanted);
          busy := busy + {Block(page, wanted)};
          return Some(page);
        }
        level := level + 1;
      }
      return None;
    }

    method Split(page: nat, from: nat, to: nat)
      requires Shaped() && to <= from <= MAX_ORDER
      requires Inv(Model(), busy, {Block(page, from)}) && Block(page, from) !in busy
      modifies this`order, this`flags, this`free
      ensures Shaped() && BlockOk(old(Model()), page, from)
      ensures Model() == Claim(BuddySpec.Split(old(Model()), page, from, to), page, to)
    {
      hide Inv, FlipBit, SamePages;
      ghost var s := Model();
      HandOk(s, busy, page, from);
      var level := from;
      while level > to
        invariant to <= level <= from && Shaped() && BlockOk(Model(), page, level)
        invariant Inv(Model(), busy, {Block(page, level)}) && Block(page, level) !in busy
        invariant BuddySpec.Split(Model(), page, level, to) == BuddySpec.Split(s, page, from, to)
      {
        level := level - 1;
        SplitOnce(Model(), busy, page, level);
        ghost var next := Push(Model(), FlipBit(page, level), level);
        var buddy := FlipBit(page, level) - Offset();
        order := order[buddy := level];
        flags := flags[buddy := true];
        free := free[level := [FlipBit(page, level)] + free[level]];
        assert Model() == next;
      }
      order := order[page - Offset() := to];
      flags := flags[page - Offset() := false];
    }

    /** `FreePages(Page*)`: the order is the one recorded in the page. */
    method FreePages(page: nat)
      requires Valid() && InZone(Model(), page) && MayFree(Model(), busy, page, LevelOf(Model(), page))
      modifies this
      ensures BlockOk(old(Model()), page, old(LevelOf(Model(), page)))
      ensures Valid() && busy == old(busy) - {Block(page, old(LevelOf(Model(), page)))}
      ensures Model() == FreeAt(old(Model()), page, old(LevelOf(Model(), page)))
      ensures available == old(available) + Pow2(old(LevelOf(Model(), page)))
    {
      hide Ready, FreeTotal, MayFree;
      ghost var s := Model();
      var l := order[page - Offset()];
      FreeStart(s, busy, page, l);
      FreeInv(s, busy, page, l);
      TotalFree(s, busy, page, l);
      busy := busy - {Block(page, l)};
      Unite(page, l);
      available := available + Pow2(l);
    }

    /** Merges the block with its buddy as long as that is free. */
    method Unite(page: nat, from: nat)
      requires Shaped() && Block(page, from) !in busy && Inv(Model(), busy, {Block(page, from)})
      modifies this`order, this`flags, this`free
      ensures Shaped() && BlockOk(old(Model()), page, from) && Model() == FreeAt(old(Model()), page, from)
    {
      hide Inv, FlipBit, SamePages;
      ghost var s := Model();
      var i: nat, l: nat := page, from;
      HandOk(s, busy, i, l);
      while l < MAX_ORDER
        invariant l <= MAX_ORDER && Shaped() && BlockOk(Model(), i, l)
        invariant Inv(Model(), busy, {Block(i, l)}) && Block(i, l) !in busy
        invariant FreeAt(Model(), i, l) == FreeAt(s, page, from)
      {
        var buddy := FlipBit(i, l);
        if buddy < Offset() || buddy - Offset() >= pages {
          break;
        }
        if order[buddy - Offset()] != l || !flags[buddy - Offset()] {
          break;
        }
        MergeOnce(Model(), busy, i, l);
        ghost var next := Remove(Model(), buddy, l);
        free := free[l := Without<nat>(free[l], buddy)];
        assert Model() == next;
        i := Min(i, buddy);
        l := l + 1;
      }
      assert !Merges(Model(), i, l);
      MergeEnd(Model(), busy, i, l);
      order := order[i - Offset() := l];
      flags := flags[i - Offset() := true];
      free := free[l := [i] + free[l]];
    }

    /** `FreePages(addr, order)`: records the order first. */
    method FreePagesAt(page: nat, l: nat)
      requires Valid() && MayFree(Model(), busy, page, l)
      modifies this
      ensures BlockOk(old(Model()), page, l)
      ensures Valid() && busy == old(busy) - {Block(page, l)}
      ensures Model() == FreeAt(WithLevel(old(Model()), page, l), page, l)
      ensures available == old(available) + Pow2(l)
    {
      hide BlockOk, Covered, FreeAt, FreeTotal, In, Inv, MayFree, Pow2, Ready, Shape;
      FreeStart(Model(), busy, page, l);
      BlockInZone(Model(), page, l);
      WithLevelReady(Model(), busy, page, l);
      order := order[page - Offset() := l];
      FreePages(page);
    }
  }

  /** The state with the order of one page recorded. */
  function WithLevel(s: State, i: nat, l: nat): State
    requires InZone(s, i)
  {
    s.(level := s.level[i - s.offset := l])
  }

  /** Recording the order of a page that may be freed at it changes nothing that matters. */
  lemma WithLevelReady(s: State, busy: set<Block>, i: nat, l: nat)
    requires Ready(s, busy) && MayFree(s, busy, i, l) && BlockOk(s, i, l)
    ensures Ready(WithLevel(s, i, l), busy) && MayFree(WithLevel(s, i, l), busy, i, l)
    ensures FreeTotal(WithLevel(s, i, l)) == FreeTotal(s)
    ensures forall p :: Covered(WithLevel(s, i, l), busy, p) <==> Covered(s, busy, p)
  {
    var t := WithLevel(s, i, l);
    assert busy + {} == busy;
    assert forall j: nat, m: nat :: Known(t, busy, j, m) <==> Known(s, busy, j, m);
    SameCovered(s, busy, t, busy);
    if Block(i, l) in busy {
      assert t == s;
    } else {
      WithLevelTags(s, busy, i, l);
    }
  }

  /** An uncovered page is no head, so its order does not matter. */
  lemma WithLevelTags(s: State, busy: set<Block>, i: nat, l: nat)
    requires Geometry(s, busy) && Tags(s, busy, busy) && InZone(s, i) && !Covered(s, busy, i)
    ensures Tags(WithLevel(s, i, l), busy, busy)
  {
    var t := WithLevel(s, i, l);
    forall j: nat, m: nat | Known(s, busy, j, m)
      ensures j != i
    {
      assert In(j, j, m) && Covered(s, busy, j);
    }
    forall j: nat, m: nat | IsFree(t, j, m)
      ensures InZone(t, j) && Flagged(t, j) && LevelOf(t, j) == m
    {
      assert IsFree(s, j, m) && Known(s, busy, j, m);
    }
    forall b | b in busy
      ensures InZone(t, b.head) && !Flagged(t, b.head) && LevelOf(t, b.head) == b.level
    {
      assert b == Block(b.head, b.level) && Known(s, busy, b.head, b.level);
    }
    SameCovered(s, busy, t, busy);
  }

  lemma {:induction false} EmptyTotal(free: seq<seq<nat>>, l: nat)
    requires l <= |free| && forall k :: 0 <= k < |free| ==> free[k] == []
    ensures Total(free, l) == 0
  {
    if l > 0 {
      EmptyTotal(free, l - 1);
    }
  }

  // ----- freeing a range of memory

  /** The bytes of the page are all in the range. */
  predicate PageInside(p: nat, begin: nat, end: nat) {
    begin <= 4096 * p && 4096 * (p + 1) <= end
  }

  /** `FreeMemory`: refuses a range outside the zone, and otherwise frees exactly the pages
    * wholly inside it, none of which was managed before. */
  method FreeMemory(zone: Zone, begin: nat, end: nat) returns (ok: bool)
    requires zone.Valid() && end < U64 && begin + 4095 < U64
    requires forall p: nat :: PageInside(p, begin, end) ==> !Covered(zone.Model(), zone.busy, p)
    modifies zone
    ensures zone.Valid() && zone.busy == old(zone.busy)
    ensures ok <==> begin <= end && zone.from <= begin < zone.To() && zone.from < end <= zone.To()
    ensures !ok ==> zone.Model() == old(zone.Model())
    ensures ok ==> forall p: nat :: FreePage(zone.Model(), p) <==>
      old(FreePage(zone.Model(), p)) || PageInside(p, begin, end)
  {
    hide AlignDown, AlignUp, Covered, FreePage, FreeTotal, IsPow2, PageInside, Ready, Shape, Zone.Model;
    if begin > end {
      return false;
    }
    if begin < zone.from || begin >= zone.To() {
      return false;
    }
    if end <= zone.from || end > zone.To() {
      return false;
    }
    PageSizePow2();
    var first, last := AlignUp(begin, 4096) / 4096, AlignDown(end, 4096) / 4096;
    PagesInside(begin, end, first, last);
    RoundedInside(begin, end, zone.from, zone.pages);
    if first >= last {
      return true;
    }
    FreeTiles(zone, first, last);
    return true;
  }

  lemma PagesInside(begin: nat, end: nat, first: nat, last: nat)
    requires IsPow2(4096) && first == AlignUp(begin, 4096) / 4096 && last == AlignDown(end, 4096) / 4096
    ensures forall p: nat :: first <= p < last <==> PageInside(p, begin, end)
  {
    forall p: nat
      ensures first <= p < last <==> PageInside(p, begin, end)
    {
      AlignUpLeast(begin, 4096, 4096 * p);
      AlignDownGreatest(end, 4096, 4096 * (p + 1));
    }
  }

  lemma RoundedInside(begin: nat, end: nat, from: nat, pages: nat)
    requires IsPow2(4096) && from % 4096 == 0 && from <= begin && end <= from + 4096 * pages
    ensures from / 4096 <= AlignUp(begin, 4096) / 4096 && AlignDown(end, 4096) / 4096 <= from / 4096 + pages
    ensures AlignDown(end, 4096) / 4096 <= end
  {
  }

  /** The loop of `FreeMemory`, on page numbers. */
  method FreeTiles(zone: Zone, first: nat, last: nat)
    requires zone.Valid() && zone.Offset() <= first < last <= zone.Offset() + zone.pages && last < U64
    requires forall p: nat :: first <= p < last ==> !Covered(zone.Model(), zone.busy, p)
    modifies zone
    ensures zone.Valid() && zone.busy == old(zone.busy)
    ensures forall p: nat :: FreePage(zone.Model(), p) <==> old(FreePage(zone.Model(), p)) || first <= p < last
  {
    hide Ready, Covered, FreePage, FreeTotal;
    ghost var s, busy := zone.Model(), zone.busy;
    var page := first;
    while page != last
      invariant first <= page <= last && zone.Valid() && zone.busy == busy
      invariant forall p: nat :: FreePage(zone.Model(), p) <==> FreePage(s, p) || first <= p < page
      invariant forall p: nat :: Covered(zone.Model(), busy, p) <==> Covered(s, busy, p) || first <= p < page
      decreases last - page
    {
      var align := LeastSignificantBit(page);
      var size := MostSignificantBit(last - page);
      var order := Min(Min(align, size), MAX_ORDER);
      FloorLog2Unique(last - page, size);
      if page > 0 {
        ValuationUnique(page, align);
      }
      assert order == TileOrder(page, last - page, MAX_ORDER);
      TileFits(page, last, MAX_ORDER);
      FreeTile(zone, page, order);
      page := page + Pow2(order);
    }
  }

  method FreeTile(zone: Zone, page: nat, order: nat)
    requires zone.Valid() && BlockOk(zone.Model(), page, order)
    requires forall p: nat :: In(p, page, order) ==> !Covered(zone.Model(), zone.busy, p)
    modifies zone
    ensures zone.Valid() && zone.busy == old(zone.busy)
    ensures forall p: nat :: FreePage(zone.Model(), p) <==> old(FreePage(zone.Model(), p)) || In(p, page, order)
    ensures forall p: nat :: Covered(zone.Model(), zone.busy, p) <==>
      old(Covered(zone.Model(), zone.busy, p)) || In(p, page, order)
  {
    ghost var s, busy := zone.Model(), zone.busy;
    WithLevelReady(s, busy, page, order);
    FreeNewPages(WithLevel(s, page, order), busy, page, order);
    WithLevelFree(s, page, order);
    hide Ready, Covered, FreePage, FreeTotal;
    zone.FreePagesAt(page, order);
  }

  lemma WithLevelFree(s: State, i: nat, l: nat)
    requires InZone(s, i)
    ensures forall p: nat :: FreePage(WithLevel(s, i, l), p) <==> FreePage(s, p)
  {
    SameCovered(s, {}, WithLevel(s, i, l), {});
  }

  // ----- all zones

  /** A run of pages handed out in bytes: `Contigous`. */
  datatype Contiguous = Nothing | Run(zone: nat, page: nat, order: nat) {
    function FromAddress(): nat {
      if Nothing? then 0 else 4096 * page
    }

    function Size(): nat {
      if Nothing? then 0 else Pow2(order + 12)
    }

    function ToAddress(): nat {
      FromAddress() + Size()
    }
  }

  function Sum(q: seq<nat>): nat {
    if q == [] then 0 else q[0] + Sum(q[1..])
  }

  lemma {:induction false} SumUpdate(q: seq<nat>, k: nat, v: nat)
    requires k < |q|
    ensures Sum(q[k := v]) + q[k] == Sum(q) + v
  {
    if k > 0 {
      assert q[k := v][1..] == q[1..][k - 1 := v];
      SumUpdate(q[1..], k - 1, v);
    } else {
      assert q[k := v][1..] == q[1..];
    }
  }

  lemma BytesTaken(q: seq<nat>, r: seq<nat>, k: nat, order: nat)
    requires k < |q| && q[k] >= Pow2(order) && r == q[k := q[k] - Pow2(order)]
    ensures 4096 * Sum(r) == 4096 * Sum(q) - Pow2(order + 12)
  {
    SumUpdate(q, k, q[k] - Pow2(order));
    BlockBytes(order);
  }

  lemma BytesReturned(q: seq<nat>, r: seq<nat>, k: nat, order: nat)
    requires k < |q| && r == q[k := q[k] + Pow2(order)]
    ensures 4096 * Sum(r) == 4096 * Sum(q) + Pow2(order + 12)
  {
    SumUpdate(q, k, q[k] + Pow2(order));
    BlockBytes(order);
  }

  /** The least order whose blocks hold `size` bytes. */
  ghost predicate LeastOrder(size: nat, order: nat) {
    size <= Pow2(order + 12) && (order > 0 ==> Pow2(order + 11) < size)
  }

  /** The order computed by `AllocatePhysical`. */
  method OrderFor(size: nat) returns (order: nat)
    requires 0 < size < U64
    ensures LeastOrder(size, order)
  {
    var msb := MostSignificantBit(size - 1);
    var power := 1 + msb;
    order := (if power > 12 then power else 12) - 12;
    Pow2Words();
    if power <= 12 {
      Pow2Monotone(power, 12);
    }
  }

  /** A power of two of at least a page is exactly one block of its order. */
  lemma LeastOrderExact(k: nat, order: nat)
    requires k >= 12 && LeastOrder(Pow2(k), order)
    ensures k == order + 12
  {
    if k < order + 12 {
      Pow2Monotone(k, order + 11);
    }
    if order + 12 < k {
      Pow2StrictlyMonotone(order + 12, k);
    }
  }

  /** Blocks have addresses aligned to their size. */
  lemma BlockAddressAligned(page: nat, order: nat)
    requires Aligned(page, order)
    ensures (4096 * page) % Pow2(order + 12) == 0
  {
    hide Pow2, Aligned;
    AlignedIsDivisible(page, order);
    Division(page, Pow2(order));
    Pow2Sum(12, order);
    Pow2Words();
    var q := page / Pow2(order);
    assert 4096 * page == q * Pow2(order + 12) by {
      assert 4096 * (q * Pow2(order)) == q * (4096 * Pow2(order));
    }
    MultipleOf(q, Pow2(order + 12));
  }

  class Physical {
    const zones: seq<Zone>

    constructor (zones: seq<Zone>)
      ensures this.zones == zones
    {
      this.zones := zones;
    }

    ghost predicate Distinct() {
      forall j, k :: 0 <= j < |zones| && 0 <= k < |zones| && j != k ==>
        && zones[j] != zones[k]
        && (zones[j].Offset() + zones[j].pages <= zones[k].Offset()
          || zones[k].Offset() + zones[k].pages <= zones[j].Offset())
    }

    ghost predicate Valid()
      reads zones
    {
      Distinct() && forall k :: 0 <= k < |zones| ==> zones[k].Valid()
    }

    /** The run is handed out and not yet freed. */
    ghost predicate Out(m: Contiguous)
      reads zones
    {
      OutIn(Worlds(), m)
    }

    ghost function Worlds(): (r: seq<World>)
      reads zones
      ensures |r| == |zones| && forall k :: 0 <= k < |zones| ==> r[k] == World(zones[k].Model(), zones[k].busy)
    {
      seq(|zones|, k requires 0 <= k < |zones| reads zones => World(zones[k].Model(), zones[k].busy))
    }

    ghost function Counters(): (r: seq<nat>)
      reads zones
      ensures |r| == |zones| && forall k :: 0 <= k < |zones| ==> r[k] == zones[k].available
    {
      seq(|zones|, k requires 0 <= k < |zones| reads zones => zones[k].available)
    }

    /** `AvailablePhysical`. */
    ghost function Available(): nat
      reads zones
    {
      4096 * Sum(Counters())
    }

    /** What is available is 4096 bytes for each free page of the zones. */
    lemma AvailableIsFree() returns (pages: set<nat>)
      requires Valid()
      ensures Available() == 4096 * |pages|
      ensures forall p: nat :: p in pages <==> FreeInSome(Worlds(), p)
    {
      hide Ready, FreePage, FreeTotal;
      pages := FreeAdds(Worlds(), Counters());
    }

    /** Runs that are out have aligned addresses and do not overlap. */
    lemma OutFacts(m: Contiguous, n: Contiguous)
      requires Valid() && Out(m) && Out(n)
      ensures m.FromAddress() % m.Size() == 0
      ensures m != n ==> m.ToAddress() <= n.FromAddress() || n.ToAddress() <= m.FromAddress()
    {
      hide FlipBit, Pow2, Aligned, Tags, FreeTotal;
      var z, w := zones[m.zone], zones[n.zone];
      assert w.busy + {} == w.busy && z.busy + {} == z.busy;
      assert Known(z.Model(), z.busy, m.page, m.order) && Known(w.Model(), w.busy, n.page, n.order);
      BlockAddressAligned(m.page, m.order);
      BlockBytes(m.order);
      BlockBytes(n.order);
      if m.zone == n.zone && m != n {
        assert Apart(m.page, m.order, n.page, n.order);
      }
    }

    /** Runs are within their zone. */
    lemma OutInside(m: Contiguous)
      requires Valid() && Out(m)
      ensures m.Run? && m.zone < |zones|
      ensures zones[m.zone].from <= m.FromAddress()
      ensures m.ToAddress() <= zones[m.zone].from + 4096 * zones[m.zone].pages
    {
      var z := zones[m.zone];
      assert z.busy + {} == z.busy;
      assert Known(z.Model(), z.busy, m.page, m.order);
      BlockBytes(m.order);
    }

    /** The bytes of a zone are those of its pages. */
    lemma ZoneBytes()
      requires Valid()
      ensures forall k :: 0 <= k < |zones| ==>
        && Ready(Worlds()[k].s, Worlds()[k].busy) && zones[k].from == 4096 * Worlds()[k].s.offset
        && |Worlds()[k].s.level| == zones[k].pages
    {
    }

    method AllocateFrom(k: nat, order: nat) returns (r: Option<nat>)
      requires Valid() && k < |zones|
      modifies zones[k]
      ensures Valid()
      ensures r.Some? <==> CanAllocate(old(Worlds())[k].s, order)
      ensures r == None ==> Counters() == old(Counters()) && Worlds() == old(Worlds())
      ensures Ready(old(Worlds())[k].s, old(Worlds())[k].busy)
      ensures r.Some? ==>
        && r.value == Chosen(old(Worlds())[k].s, order) && Block(r.value, order) !in old(Worlds())[k].busy
        && Worlds() == old(Worlds())[k := Step(old(Worlds())[k], Allocation(order))]
        && Worlds()[k].busy == old(Worlds())[k].busy + {Block(r.value, order)}
        && old(Counters())[k] >= Pow2(order)
        && Counters() == old(Counters())[k := old(Counters())[k] - Pow2(order)]
    {
      hide Ready, FreeTotal, Allocate;
      AllocateNew(zones[k].Model(), zones[k].busy, order);
      r := zones[k].AllocatePages(order);
    }

    /** `AllocatePhysical`: the least order that fits, from the first zone that has it. */
    method AllocatePhysical(size: nat) returns (r: Option<Contiguous>)
      requires Valid() && size < U64
      modifies zones
      ensures Valid()
      ensures size == 0 ==> r == Some(Nothing) && r.value.FromAddress() == 0 == r.value.ToAddress()
      ensures size == 0 || r == None ==> Available() == old(Available()) && Worlds() == old(Worlds())
      ensures r == None <==> size > 0 && NoRoom(old(Worlds()), size)
      ensures size > 0 && r.Some? ==>
        && r.value.Run? && LeastOrder(size, r.value.order)
        && !old(Out(r.value)) && (forall m :: Out(m) <==> old(Out(m)) || m == r.value)
        && Available() == old(Available()) - r.value.Size()
      ensures size > 0 && r.Some? ==> FirstRun(old(Worlds()), size, r.value)
      ensures size > 0 && r.Some? ==>
        var k, order := r.value.zone, r.value.order;
        && Ready(old(Worlds())[k].s, old(Worlds())[k].busy)
        && Worlds() == old(Worlds())[k := Step(old(Worlds())[k], Allocation(order))]
      ensures size > 0 && r.Some? ==>
        var k := r.value.zone;
        && zones[k].from <= r.value.FromAddress()
        && r.value.ToAddress() <= zones[k].from + 4096 * zones[k].pages
        && forall p: nat :: FreePage(old(Worlds())[k].s, p) && !FreePage(Worlds()[k].s, p) <==>
             r.value.FromAddress() <= 4096 * p < r.value.ToAddress()
    {
      hide CanAllocate, Contiguous.FromAddress, Contiguous.ToAddress, FreePage, LeastOrder, NoRoom, Physical.Counters,
        Physical.Valid, Physical.Worlds, Pow2, Ready, Shape, Sum, Zone.Model, Zone.Valid, Step, Chosen;
      if size == 0 {
        NothingIsNowhere();
        return Some(Nothing);
      }
      var order := OrderFor(size);
      ZoneBytes();
      NoRoomAt(Worlds(), size, order);
      if order > MAX_ORDER {
        NoneAbove(order);
        return None;
      }
      for k := 0 to |zones|
        invariant Valid() && Counters() == old(Counters()) && Worlds() == old(Worlds())
        invariant forall j :: 0 <= j < k ==> !CanAllocate(old(Worlds())[j].s, order)
      {
        var page := AllocateFrom(k, order);
        if page.Some? {
          BytesTaken(old(Counters()), Counters(), k, order);
          OutMore(old(Worlds()), k, Worlds()[k], page.value, order);
          RunTaken(old(Worlds())[k], k, order);
          return Some(Run(k, page.value, order));
        }
      }
      return None;
    }

    /** `FreePhysical(Contigous)`. */
    method FreePhysical(m: Contiguous)
      requires Valid() && (m == Nothing || Out(m))
      modifies zones
      ensures Valid() && forall n :: Out(n) <==> old(Out(n)) && n != m
      ensures Available() == old(Available()) + m.Size()
      ensures m == Nothing ==> Worlds() == old(Worlds())
      ensures m.Run? ==>
        && Ready(old(Worlds())[m.zone].s, old(Worlds())[m.zone].busy)
        && Legal(old(Worlds())[m.zone], Release(m.page))
        && Worlds() == old(Worlds())[m.zone := Step(old(Worlds())[m.zone], Release(m.page))]
        && forall p: nat :: FreePage(Worlds()[m.zone].s, p) <==>
             FreePage(old(Worlds())[m.zone].s, p) || m.FromAddress() <= 4096 * p < m.ToAddress()
    {
      hide Contiguous.FromAddress, Contiguous.ToAddress, FreePage, Physical.Counters, Physical.Valid, Physical.Worlds,
        Pow2, Ready, Shape, Sum, Zone.Model, Zone.Valid, Step, Legal;
      if m == Nothing {
        return;
      }
      ZoneBytes();
      RunReturned(Worlds()[m.zone], m);
      FreeIn(m.zone, m.page, m.order);
      BytesReturned(old(Counters()), Counters(), m.zone, m.order);
      OutLess(old(Worlds()), m.zone, Worlds()[m.zone], m.page, m.order);
    }

    method FreeIn(k: nat, page: nat, order: nat)
      requires Valid() && k < |zones| && Block(page, order) in zones[k].busy
      modifies zones[k]
      ensures Valid()
      ensures Ready(old(Worlds())[k].s, old(Worlds())[k].busy) && Legal(old(Worlds())[k], Release(page))
      ensures Worlds() == old(Worlds())[k := Step(old(Worlds())[k], Release(page))]
      ensures Worlds()[k].busy == old(Worlds())[k].busy - {Block(page, order)}
      ensures Counters() == old(Counters())[k := old(Counters())[k] + Pow2(order)]
    {
      hide Ready, FreeTotal, FreeAt;
      BusyLevel(zones[k].Model(), zones[k].busy, page, order);
      zones[k].FreePages(page);
    }

    lemma NoneAbove(order: nat)
      requires Valid() && order > MAX_ORDER
      ensures forall k :: 0 <= k < |zones| ==> !CanAllocate(Worlds()[k].s, order)
    {
    }
  }

  /** The largest blocks are of order 20: a free aligned one in a zone is enough to be served. */
  lemma LargestBlock(zone: Zone, page: nat)
    requires zone.Valid() && page % 0x10_0000 == 0
    requires zone.from <= 4096 * page && 4096 * (page + 0x10_0000) <= zone.from + 4096 * zone.pages
    requires forall p: nat :: page <= p < page + 0x10_0000 ==> FreePage(zone.Model(), p)
    ensures CanAllocate(zone.Model(), 20)
    ensures forall order: nat :: order > 20 ==> !CanAllocate(zone.Model(), order)
  {
    hide Pow2, Ready, FreePage, Aligned, FreeTotal;
    Pow2Of20();
    ServedWhole(zone.Model(), zone.busy, page, 20);
  }

  lemma Pow2Of20()
    ensures Pow2(20) == 0x10_0000
  {
    hide Pow2;
    Pow2Words();
    Pow2Small();
    Pow2Sum(16, 4);
  }

  // ----- the bytes available

  /** Free pages are pages of the zone. */
  lemma FreePageInZone(s: State, busy: set<Block>, p: nat)
    requires Ready(s, busy) && FreePage(s, p)
    ensures s.offset <= p < s.offset + |s.level|
  {
    var i: nat, l: nat :| Known(s, {}, i, l) && In(p, i, l);
    assert busy + {} == busy;
    assert Known(s, busy, i, l);
  }

  ghost predicate FreeInSome(worlds: seq<World>, p: nat) {
    exists k :: 0 <= k < |worlds| && FreePage(worlds[k].s, p)
  }

  ghost predicate ZonesApart(worlds: seq<World>) {
    forall j, k :: 0 <= j < |worlds| && 0 <= k < |worlds| && j != k ==>
      || worlds[j].s.offset + |worlds[j].s.level| <= worlds[k].s.offset
      || worlds[k].s.offset + |worlds[k].s.level| <= worlds[j].s.offset
  }

  lemma FreeInFirst(worlds: seq<World>, p: nat)
    requires ZonesApart(worlds) && worlds != []
    requires forall k :: 0 <= k < |worlds| ==> Ready(worlds[k].s, worlds[k].busy)
    ensures FreeInSome(worlds, p) <==> FreePage(worlds[0].s, p) || FreeInSome(worlds[1..], p)
    ensures !(FreePage(worlds[0].s, p) && FreeInSome(worlds[1..], p))
  {
    hide Ready, FreePage;
    var rest := worlds[1..];
    if FreeInSome(rest, p) {
      var k :| 0 <= k < |rest| && FreePage(rest[k].s, p);
      assert rest[k] == worlds[k + 1];
      FreePageInZone(rest[k].s, rest[k].busy, p);
    }
    if FreeInSome(worlds, p) {
      var k :| 0 <= k < |worlds| && FreePage(worlds[k].s, p);
      assert k > 0 ==> worlds[k] == rest[k - 1];
    }
    if FreePage(worlds[0].s, p) {
      FreePageInZone(worlds[0].s, worlds[0].busy, p);
    }
  }

  /** The counters of zones that are apart add up to the number of their free pages. */
  lemma {:induction false} FreeAdds(worlds: seq<World>, counters: seq<nat>) returns (pages: set<nat>)
    requires |worlds| == |counters| && ZonesApart(worlds)
    requires forall k :: 0 <= k < |worlds| ==>
      Ready(worlds[k].s, worlds[k].busy) && counters[k] == FreeTotal(worlds[k].s)
    ensures |pages| == Sum(counters) && forall p: nat :: p in pages <==> FreeInSome(worlds, p)
    decreases |worlds|
  {
    hide Ready, FreePage, FreeTotal;
    if worlds == [] {
      return {};
    }
    var w, rest := worlds[0], worlds[1..];
    assert ZonesApart(rest) by {
      assert forall k :: 0 <= k < |rest| ==> rest[k] == worlds[k + 1];
    }
    var others := FreeAdds(rest, counters[1..]);
    var own := BuddyCount.FreePages(w.s, w.busy);
    forall p: nat
      ensures p in own + others <==> FreeInSome(worlds, p)
      ensures p !in own * others
    {
      FreeInFirst(worlds, p);
    }
    assert own * others == {};
    pages := own + others;
  }

  lemma NothingIsNowhere()
    ensures Nothing.FromAddress() == 0 == Nothing.ToAddress()
  {
  }

  /** The page is in the run exactly if its first byte is. */
  lemma RunPages(m: Contiguous)
    requires m.Run?
    ensures forall p: nat :: In(p, m.page, m.order) <==> m.FromAddress() <= 4096 * p < m.ToAddress()
  {
    BlockBytes(m.order);
  }

  /** The pages of the run chosen were free and are not any more, and no others. */
  lemma RunTaken(w: World, k: nat, order: nat)
    requires Ready(w.s, w.busy) && CanAllocate(w.s, order)
    ensures var m := Run(k, Chosen(w.s, order), order);
      && 4096 * w.s.offset <= m.FromAddress() && m.ToAddress() <= 4096 * (w.s.offset + |w.s.level|)
      && forall p: nat :: FreePage(w.s, p) && !FreePage(Step(w, Allocation(order)).s, p) <==>
           m.FromAddress() <= 4096 * p < m.ToAddress()
  {
    var m := Run(k, Chosen(w.s, order), order);
    AllocatedWasFree(w.s, w.busy, order);
    BlockBytes(order);
    RunPages(m);
    hide FreePage, Ready, Chosen, CanAllocate, Contiguous.FromAddress, Contiguous.ToAddress;
    forall p: nat
      ensures FreePage(w.s, p) && !FreePage(Step(w, Allocation(order)).s, p) <==>
        m.FromAddress() <= 4096 * p < m.ToAddress()
    {
      AllocateFreePages(w.s, w.busy, order, p);
    }
  }

  lemma RunReturned(w: World, m: Contiguous)
    requires Ready(w.s, w.busy) && m.Run? && Block(m.page, m.order) in w.busy
    ensures Legal(w, Release(m.page))
    ensures forall p: nat :: FreePage(Step(w, Release(m.page)).s, p) <==>
      FreePage(w.s, p) || m.FromAddress() <= 4096 * p < m.ToAddress()
  {
    BusyLevel(w.s, w.busy, m.page, m.order);
    RunPages(m);
    hide FreePage, Ready, Contiguous.FromAddress, Contiguous.ToAddress;
    forall p: nat
      ensures FreePage(Step(w, Release(m.page)).s, p) <==>
        FreePage(w.s, p) || m.FromAddress() <= 4096 * p < m.ToAddress()
    {
      FreeFreePages(w.s, w.busy, m.page, m.order, p);
    }
  }

  ghost predicate OutIn(worlds: seq<World>, m: Contiguous) {
    m.Run? && m.zone < |worlds| && Block(m.page, m.order) in worlds[m.zone].busy
  }

  lemma BusyLevel(s: State, busy: set<Block>, page: nat, order: nat)
    requires Ready(s, busy) && Block(page, order) in busy
    ensures InZone(s, page) && LevelOf(s, page) == order && MayFree(s, busy, page, order)
  {
    assert busy + {} == busy;
  }

  lemma OutLess(worlds: seq<World>, k: nat, w: World, page: nat, order: nat)
    requires k < |worlds| && w.busy == worlds[k].busy - {Block(page, order)}
    ensures forall m :: OutIn(worlds[k := w], m) <==> OutIn(worlds, m) && m != Run(k, page, order)
  {
  }

  lemma OutMore(worlds: seq<World>, k: nat, w: World, page: nat, order: nat)
    requires k < |worlds| && w.busy == worlds[k].busy + {Block(page, order)}
    ensures forall m :: OutIn(worlds[k := w], m) <==> OutIn(worlds, m) || m == Run(k, page, order)
  {
  }

  /** The run is the block that the first zone with one of the least order chooses. */
  ghost predicate FirstRun(worlds: seq<World>, size: nat, m: Contiguous) {
    && m.Run? && LeastOrder(size, m.order) && m.zone < |worlds|
    && (forall j :: 0 <= j < m.zone ==> !CanAllocate(worlds[j].s, m.order))
    && CanAllocate(worlds[m.zone].s, m.order) && m.page == Chosen(worlds[m.zone].s, m.order)
  }

  lemma LeastOrderUnique(size: nat, o: nat, order: nat)
    requires LeastOrder(size, o) && LeastOrder(size, order)
    ensures o == order
  {
    if o < order {
      Pow2Monotone(o + 12, order + 11);
    } else if order < o {
      Pow2Monotone(order + 12, o + 11);
    }
  }

  /** There is at most one such run, and one exactly if there is room. */
  lemma FirstRunUnique(worlds: seq<World>, size: nat, m: Contiguous, n: Contiguous)
    requires FirstRun(worlds, size, m)
    ensures FirstRun(worlds, size, n) ==> m == n
    ensures !NoRoom(worlds, size)
  {
    if FirstRun(worlds, size, n) {
      LeastOrderUnique(size, m.order, n.order);
      assert m.zone == n.zone;
    }
  }

  /** A zone from address 0 that is one free block gives that block. */
  lemma WholeZoneRun(w: World, order: nat)
    requires Ready(w.s, w.busy) && w.s.offset == 0 && |w.s.level| == Pow2(order) && order < |w.s.free|
    requires forall p: nat :: p < Pow2(order) ==> FreePage(w.s, p)
    ensures FirstRun([w], Pow2(order + 12), Run(0, 0, order))
  {
    hide Pow2, Aligned, FreePage, Ready, CanAllocate, Chosen;
    ZeroAligned(order);
    assert BlockOk(w.s, 0, order) && WhollyFree(w.s, 0, order);
    AllocationComplete(w.s, w.busy, order);
    AllocatedWasFree(w.s, w.busy, order);
    if order > 0 {
      Pow2StrictlyMonotone(order + 11, order + 12);
    }
  }

  /** No zone has a free aligned block of the least order that holds `size` bytes. */
  ghost predicate NoRoom(worlds: seq<World>, size: nat) {
    forall order: nat, k :: LeastOrder(size, order) && 0 <= k < |worlds| ==> !CanAllocate(worlds[k].s, order)
  }

  lemma NoRoomAt(worlds: seq<World>, size: nat, order: nat)
    requires LeastOrder(size, order)
    ensures NoRoom(worlds, size) <==> forall k :: 0 <= k < |worlds| ==> !CanAllocate(worlds[k].s, order)
  {
    forall o: nat | LeastOrder(size, o)
      ensures o == order
    {
      LeastOrderUnique(size, o, order);
    }
  }

  lemma BlockBytes(order: nat)
    ensures Pow2(order + 12) == 4096 * Pow2(order)
  {
    Pow2Sum(12, order);
    Pow2Words();
  }

  /** The block handed out was not out before. */
  lemma AllocateNew(s: State, busy: set<Block>, order: nat)
    requires Ready(s, busy)
    ensures CanAllocate(s, order) ==> Block(Chosen(s, order), order) !in busy
  {
    if CanAllocate(s, order) {
      AllocateInv(s, busy, order);
    }
  }
}
