/** The arithmetic of slabs in `memory/cache.cc`: the layout, the objects in it, the counters. */
module SlabLayout {
  import opened Numeric
  import opened Sequences

  // ----- layout

  /** Objects start at offset 0, the control block is at the end of the slab. */
  datatype Layout = Layout(objectSize: nat, objects: nat, controlOffset: nat, slabSize: nat)

  /** `sizeof(Storage)`: two links and a pointer. */
  const STORAGE_SIZE: nat := 24

  /** `sizeof(Slab)`: two links, the list head, a counter, a pointer and a `Contigous`. */
  const CONTROL_SIZE: nat := 72

  /** `AlignUp`, with the mask that rounds only if the alignment is a power of two. */
  function ObjectSize(size: nat, alignment: nat): nat
    requires alignment > 0
  {
    AndNot((if size < STORAGE_SIZE then STORAGE_SIZE else size) + alignment - 1, alignment - 1)
  }

  /** Objects are large enough and keep the powers of two in the alignment. */
  lemma ObjectSizeFacts(size: nat, alignment: nat)
    requires alignment > 0
    ensures size <= ObjectSize(size, alignment) && 24 <= ObjectSize(size, alignment)
    ensures ObjectSize(size, alignment) < (if size < 24 then 24 else size) + alignment
    ensures forall k: nat :: Aligned(alignment, k) ==> Aligned(ObjectSize(size, alignment), k)
  {
    hide AndNot, Aligned;
    var bytes := if size < STORAGE_SIZE then STORAGE_SIZE else size;
    AndNotBounds(bytes + alignment - 1, alignment - 1);
    forall k: nat | Aligned(alignment, k)
      ensures Aligned(ObjectSize(size, alignment), k)
    {
      AndNotAligned(bytes + alignment - 1, alignment, k);
    }
  }

  /** For a power of two, objects have the least multiple of it that holds the size and a list node. */
  lemma ObjectSizeLeast(size: nat, alignment: nat, bytes: nat)
    requires IsPow2(alignment) && bytes % alignment == 0
    ensures size <= bytes && 24 <= bytes <==> ObjectSize(size, alignment) <= bytes
  {
    hide AndNot, IsPow2;
    var needed := if size < STORAGE_SIZE then STORAGE_SIZE else size;
    MaskRoundsDown(needed + alignment - 1, alignment);
    AlignUpLeast(needed, alignment, bytes);
  }

  /** The size of the objects is a multiple of the alignment, whatever was asked for, exactly if
    * the alignment is a power of two. */
  lemma AlignmentKept(alignment: nat)
    requires alignment > 0
    ensures IsPow2(alignment) <==> forall size: nat :: ObjectSize(size, alignment) % alignment == 0
  {
    hide AndNot, Pow2, Aligned;
    if IsPow2(alignment) {
      forall size: nat
        ensures ObjectSize(size, alignment) % alignment == 0
      {
        MaskRoundsDown((if size < STORAGE_SIZE then STORAGE_SIZE else size) + alignment - 1, alignment);
      }
    } else {
      var size := AlignmentLost(alignment);
    }
  }

  lemma AlignmentLost(alignment: nat) returns (size: nat)
    requires alignment > 0 && !IsPow2(alignment)
    ensures ObjectSize(size, alignment) % alignment != 0
  {
    hide AndNot, Pow2, Aligned, LowestBit;
    var k := HasLowestBit(alignment);
    Pow2Larger(k);
    assert Pow2(k) < alignment;
    var n := alignment + 5;
    Pow2Larger(alignment);
    Pow2Sum(alignment, 5);
    Pow2Of5();
    assert Pow2(n) >= alignment && Pow2(n) >= 32;
    HighBitsStay(Pow2(k), alignment - 1, n, alignment);
    LowestBitStays(alignment, k);
    var bits := Pow2(k) + Pow2(n) * alignment;
    Multiples(32, Pow2(n), alignment);
    size := bits - (alignment - 1);
    DivisionUnique(bits, alignment, Pow2(n), Pow2(k));
  }

  lemma Pow2Of5()
    ensures Pow2(5) == 32
  {
  }

  /** Of the caches in memory/alloc.cc, the one for 384 bytes has objects of 640 bytes, which are
    * not aligned to 384. */
  lemma OddAlignment()
    ensures ObjectSize(384, 384) == 640 && 640 % 384 != 0
  {
    assert AndNot(5, 2) == 5;
    assert AndNot(47, 23) == 40;
    assert AndNot(383, 191) == 320;
  }

  /** What the layout promises: aligned objects that hold `size` bytes and a list node, at
    * least 32 of them, all before the control block, in a slab that is a power of two of at
    * least a page. */
  ghost predicate LayoutOk(layout: Layout) {
    && layout.objectSize >= STORAGE_SIZE && layout.objects >= 32
    && layout.controlOffset + CONTROL_SIZE == layout.slabSize
    && layout.objects * layout.objectSize <= layout.controlOffset < (layout.objects + 1) * layout.objectSize
    && 4096 <= layout.slabSize < U64
    && IsPow2(layout.slabSize)
  }

  /** The power of two is the least that has room for 32 objects and the control block. */
  method SlabSize(size: nat, control: nat) returns (r: nat, ghost k: nat)
    requires 2 * (size * 32 + control) < U64
    ensures r == Pow2(k) && IsPow2(r) && 4096 <= r < U64 && size * 32 + control <= r
    ensures r == 4096 || r < 2 * (size * 32 + control)
  {
    Pow2Words();
    Pow2IsPow2(12);
    var bytes := size * 32 + control;
    if 4096 >= bytes {
      return 4096, 12;
    }
    var msb := MostSignificantBit(bytes - 1);
    var order := msb + 1;
    if order < 12 {
      Pow2Monotone(order, 12);
    }
    Pow2Monotone(12, if order < 12 then 12 else order);
    if order >= 64 {
      Pow2Monotone(63, order - 1);
    }
    Pow2IsPow2(order);
    return Pow2(order), order;
  }

  method MakeLayout(size: nat, alignment: nat) returns (layout: Layout)
    requires alignment > 0 && size + STORAGE_SIZE + alignment < 0x100_0000_0000_0000
    ensures LayoutOk(layout)
    ensures size <= layout.objectSize < (if size < 24 then 24 else size) + alignment
    ensures IsPow2(alignment) ==> forall bytes: nat :: bytes % alignment == 0 ==>
      (size <= bytes && 24 <= bytes <==> layout.objectSize <= bytes)
    ensures forall k: nat :: Aligned(alignment, k) ==> Aligned(layout.objectSize, k)
    ensures IsPow2(alignment) ==> layout.objectSize % alignment == 0
    ensures layout.controlOffset + 72 == layout.slabSize && layout.objects >= 32
    ensures layout.objects * layout.objectSize <= layout.controlOffset < (layout.objects + 1) * layout.objectSize
    ensures layout.slabSize == 4096 || layout.slabSize < 2 * (layout.objectSize * 32 + 72)
  {
    hide LayoutOk, IsPow2, ObjectSize, Aligned;
    var control := CONTROL_SIZE;
    var objectSize := ObjectSize(size, alignment);
    ObjectSizeFacts(size, alignment);
    forall bytes: nat | IsPow2(alignment) && bytes % alignment == 0
      ensures size <= bytes && 24 <= bytes <==> objectSize <= bytes
    {
      ObjectSizeLeast(size, alignment, bytes);
    }
    AlignmentKept(alignment);
    var slabSize, k := SlabSize(objectSize, control);
    var objects := (slabSize - control) / objectSize;
    layout := Layout(objectSize, objects, slabSize - control, slabSize);
    LayoutFits(objectSize, slabSize);
  }

  lemma LayoutFits(objectSize: nat, slabSize: nat)
    requires objectSize >= STORAGE_SIZE && objectSize * 32 + CONTROL_SIZE <= slabSize
    requires 4096 <= slabSize < U64 && IsPow2(slabSize)
    ensures LayoutOk(
      Layout(objectSize, (slabSize - CONTROL_SIZE) / objectSize, slabSize - CONTROL_SIZE, slabSize))
  {
    ObjectsFit(objectSize, slabSize - CONTROL_SIZE);
  }

  /** As many objects as fit before the control block. */
  lemma ObjectsFit(size: nat, room: nat)
    requires size > 0 && size * 32 <= room
    ensures room / size >= 32 && (room / size) * size <= room < (room / size + 1) * size
  {
    var n := room / size;
    Division(room, size);
    assert (n + 1) * size == n * size + size;
    Multiples(n + 1, 32, size);
  }

  lemma {:induction false} Pow2Larger(k: nat)
    ensures k <= Pow2(k)
  {
    if k > 0 {
      Pow2Larger(k - 1);
    }
  }

  lemma Pow2IsPow2(k: nat)
    ensures IsPow2(Pow2(k))
  {
    Pow2Larger(k);
  }

  // ----- the objects of a slab

  function Object(from: nat, size: nat, i: nat): nat {
    from + i * size
  }

  function Grid(from: nat, size: nat, n: nat): seq<nat> {
    seq(n, (i: nat) => Object(from, size, i))
  }

  ghost predicate OnGrid(from: nat, layout: Layout, a: nat) {
    exists i: nat :: i < layout.objects && a == Object(from, layout.objectSize, i)
  }

  /** Objects are inside the slab before the control block and do not overlap. */
  lemma ObjectsApart(from: nat, layout: Layout, a: nat, b: nat)
    requires LayoutOk(layout) && OnGrid(from, layout, a) && OnGrid(from, layout, b)
    ensures from <= a && a + layout.objectSize <= from + layout.controlOffset
    ensures a != b ==> a + layout.objectSize <= b || b + layout.objectSize <= a
  {
    hide IsPow2, Pow2, Object;
    var i: nat :| i < layout.objects && a == Object(from, layout.objectSize, i);
    var j: nat :| j < layout.objects && b == Object(from, layout.objectSize, j);
    Step(from, layout.objectSize, i, layout.objects);
    if i < j {
      Step(from, layout.objectSize, i, j);
    } else if j < i {
      Step(from, layout.objectSize, j, i);
    }
  }

  lemma Step(from: nat, size: nat, i: nat, j: nat)
    requires i < j
    ensures from <= Object(from, size, i) && Object(from, size, i) + size <= Object(from, size, j) == from + j * size
  {
    Multiples(i, j, size);
  }

  lemma GridFacts(from: nat, layout: Layout)
    requires LayoutOk(layout)
    ensures var g := Grid(from, layout.objectSize, layout.objects);
      && NoDuplicates<nat>(g) && |g| == layout.objects
      && forall a: nat :: a in g <==> OnGrid(from, layout, a)
  {
    var g := Grid(from, layout.objectSize, layout.objects);
    forall x, y | 0 <= x < y < |g|
      ensures g[x] != g[y]
    {
      Multiples(x, y, layout.objectSize);
    }
    forall a: nat
      ensures a in g <==> OnGrid(from, layout, a)
    {
      if OnGrid(from, layout, a) {
        var i: nat :| i < layout.objects && a == Object(from, layout.objectSize, i);
        assert g[i] == a;
      }
    }
  }

  lemma LayoutParts(layout: Layout)
    requires LayoutOk(layout)
    ensures layout.objectSize >= STORAGE_SIZE && layout.objects >= 32
  {
  }

  lemma GridStart(from: nat, size: nat)
    ensures Object(from, size, 0) == from && Grid(from, size, 0) == []
  {
  }

  lemma GridFirst(from: nat, size: nat, n: nat)
    requires n > 0
    ensures Grid(from, size, n) != [] && Grid(from, size, n)[0] == from
  {
  }

  lemma GridNext(from: nat, size: nat, k: nat, n: nat)
    requires size > 0 && k <= n
    ensures Object(from, size, k) < from + size * n <==> k < n
    ensures Object(from, size, k) + size == Object(from, size, k + 1)
    ensures Grid(from, size, k) + [Object(from, size, k)] == Grid(from, size, k + 1)
  {
    Multiples(k, n, size);
    Multiples(n, k, size);
    assert (k + 1) * size == k * size + size;
  }

  lemma GridAligned(from: nat, layout: Layout, alignment: nat, a: nat)
    requires LayoutOk(layout) && OnGrid(from, layout, a) && from % layout.slabSize == 0
    requires IsPow2(alignment) && layout.objectSize % alignment == 0
    ensures a % alignment == 0
  {
    hide Pow2;
    var i: nat :| i < layout.objects && a == Object(from, layout.objectSize, i);
    SlabAligned(layout, alignment);
    Division(from, layout.slabSize);
    ProductDivides(from / layout.slabSize, layout.slabSize, alignment);
    ProductDivides(i, layout.objectSize, alignment);
    SumDivides(from, i * layout.objectSize, alignment);
  }

  lemma SlabAligned(layout: Layout, alignment: nat)
    requires LayoutOk(layout) && IsPow2(alignment) && layout.objectSize % alignment == 0
    ensures layout.slabSize % alignment == 0
  {
    hide Pow2;
    var j: nat, k: nat :| alignment == Pow2(j) && layout.slabSize == Pow2(k);
    Multiples(1, layout.objects, layout.objectSize);
    PowersDivide(layout.objectSize, j, k);
    MultipleOf(Pow2(k - j), alignment);
  }

  lemma ProductDivides(q: nat, d: nat, a: nat)
    requires a > 0 && d % a == 0
    ensures (q * d) % a == 0
  {
    var r := d / a;
    Division(d, a);
    assert q * (r * a) == (q * r) * a;
    MultipleOf(q * r, a);
  }

  lemma SumDivides(x: nat, y: nat, a: nat)
    requires a > 0 && x % a == 0 && y % a == 0
    ensures (x + y) % a == 0
  {
    Division(x, a);
    Division(y, a);
    assert x + y == (x / a + y / a) * a;
    MultipleOf(x / a + y / a, a);
  }

  /** A power of two that divides something smaller than a greater one divides that. */
  lemma PowersDivide(size: nat, j: nat, k: nat)
    requires 0 < size <= Pow2(k) && size % Pow2(j) == 0
    ensures j <= k && Pow2(k) == Pow2(k - j) * Pow2(j)
  {
    hide Pow2;
    if k < j {
      Pow2StrictlyMonotone(k, j);
    } else {
      Pow2Sum(k - j, j);
    }
  }

  // ----- counters

  lemma BytesMore(size: nat, n: nat)
    ensures size * (n + 1) == size * n + size
  {
  }

  /** What the counters say, in terms of the objects handed out and the numbers of slabs. */
  ghost predicate Counted(layout: Layout, total: nat, occupied: nat, reclaimable: nat, objects: nat, slabs: nat,
                          free: nat)
  {
    && total == layout.objectSize * objects
    && occupied == layout.slabSize * slabs
    && reclaimable == layout.slabSize * free
  }

  lemma CountedMore(layout: Layout, total: nat, occupied: nat, reclaimable: nat, objects: nat, slabs: nat, free: nat)
    requires Counted(layout, total, occupied, reclaimable, objects, slabs, free)
    ensures Counted(layout, total + layout.objectSize, occupied, reclaimable, objects + 1, slabs, free)
  {
    BytesMore(layout.objectSize, objects);
  }

  lemma CountedMove(layout: Layout, total: nat, occupied: nat, reclaimable: nat, objects: nat, slabs: nat, free: nat)
    requires Counted(layout, total, occupied, reclaimable, objects, slabs, free + 1)
    ensures reclaimable >= layout.slabSize
    ensures Counted(layout, total, occupied, reclaimable - layout.slabSize, objects, slabs, free)
  {
    BytesMore(layout.slabSize, free);
  }

  lemma CountedSlab(layout: Layout, total: nat, occupied: nat, reclaimable: nat, objects: nat, slabs: nat, free: nat)
    requires Counted(layout, total, occupied, reclaimable, objects, slabs, free)
    ensures Counted(layout, total, occupied + layout.slabSize, reclaimable, objects, slabs + 1, free)
  {
    BytesMore(layout.slabSize, slabs);
  }

  lemma CountedLess(layout: Layout, total: nat, occupied: nat, reclaimable: nat, objects: nat, slabs: nat, free: nat)
    requires Counted(layout, total, occupied, reclaimable, objects + 1, slabs, free)
    ensures total >= layout.objectSize
    ensures Counted(layout, total - layout.objectSize, occupied, reclaimable, objects, slabs, free)
  {
    BytesMore(layout.objectSize, objects);
  }

  lemma CountedMoveBack(layout: Layout, total: nat, occupied: nat, reclaimable: nat, objects: nat, slabs: nat,
                        free: nat)
    requires Counted(layout, total, occupied, reclaimable, objects, slabs, free)
    ensures Counted(layout, total, occupied, reclaimable + layout.slabSize, objects, slabs, free + 1)
  {
    BytesMore(layout.slabSize, free);
  }

  lemma NoneLeft(layout: Layout, total: nat, occupied: nat, reclaimable: nat, objects: nat, slabs: nat)
    requires Counted(layout, total, occupied, reclaimable, objects, slabs, 0)
    ensures reclaimable == 0
  {
  }

  lemma CountedFreed(layout: Layout, total: nat, occupied: nat, reclaimable: nat, objects: nat, slabs: nat, free: nat)
    requires Counted(layout, total, occupied, reclaimable, objects, slabs + 1, free + 1)
    ensures reclaimable >= layout.slabSize && occupied >= layout.slabSize
    ensures Counted(layout, total, occupied - layout.slabSize, reclaimable - layout.slabSize, objects, slabs, free)
  {
    BytesMore(layout.slabSize, free);
    BytesMore(layout.slabSize, slabs);
  }
}
