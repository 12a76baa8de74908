/** Cutting a range of pages into aligned blocks, as `free_page_range` of
  * `kernel/memory/src/lib.rs` and `FreeMemory` of `memory/memory.cc` do.
  */
module Tiling {
  import opened BuddySpec
  import opened Numeric

  /** Position of the highest set bit. */
  function FloorLog2(n: nat): nat
    requires n > 0
  {
    if n == 1 then 0 else 1 + FloorLog2(n / 2)
  }

  /** Position of the lowest set bit. */
  function Valuation(i: nat): nat
    requires i > 0
  {
    if i % 2 == 1 then 0 else 1 + Valuation(i / 2)
  }

  lemma {:induction false} FloorLog2Unique(n: nat, k: nat)
    requires n > 0 && HighestBit(n, k)
    ensures FloorLog2(n) == k
  {
    Pow2Monotone(if k > 0 then 1 else 0, k);
    if n > 1 {
      FloorLog2Unique(n / 2, k - 1);
    }
  }

  lemma {:induction false} FloorLog2Bit(n: nat)
    requires n > 0
    ensures HighestBit(n, FloorLog2(n))
  {
    if n > 1 {
      FloorLog2Bit(n / 2);
    }
  }

  lemma {:induction false} ValuationUnique(i: nat, k: nat)
    requires i > 0 && LowestBit(i, k)
    ensures Valuation(i) == k
  {
    if i % 2 == 0 {
      AlignedSum(i, 1, 0);
      ValuationUnique(i / 2, k - 1);
    }
  }

  lemma {:induction false} ValuationAligned(i: nat, l: nat)
    requires i > 0 && l <= Valuation(i)
    ensures Aligned(i, l)
  {
    if l > 0 {
      ValuationAligned(i / 2, l - 1);
    }
  }

  /** The order of the first block of `n` pages from `i` on. */
  function TileOrder(i: nat, n: nat, top: nat): nat
    requires n > 0
  {
    Min(top, if i == 0 then FloorLog2(n) else Min(FloorLog2(n), Valuation(i)))
  }

  function Tiles(i: nat, end: nat, top: nat): seq<Block>
    decreases end - i
  {
    if i >= end then []
    else [Block(i, TileOrder(i, end - i, top))] + Tiles(i + Pow2(TileOrder(i, end - i, top)), end, top)
  }

  /** The first block is aligned and inside the range. */
  lemma TileFits(i: nat, end: nat, top: nat)
    requires i < end
    ensures Aligned(i, TileOrder(i, end - i, top)) && i + Pow2(TileOrder(i, end - i, top)) <= end
  {
    var o := TileOrder(i, end - i, top);
    FloorLog2Bit(end - i);
    Pow2Monotone(o, FloorLog2(end - i));
    if i == 0 {
      ZeroAligned(o);
    } else {
      ValuationAligned(i, o);
    }
  }

  /** The block could not be larger: it is limited by the largest order, the alignment of
    * its first page or the end of the range. */
  lemma TileGreedy(i: nat, end: nat, top: nat, l: nat)
    requires i < end && l <= top && Aligned(i, l) && i + Pow2(l) <= end
    ensures l <= TileOrder(i, end - i, top)
  {
    FloorLog2Bit(end - i);
    if FloorLog2(end - i) < l {
      Pow2Monotone(FloorLog2(end - i) + 1, l);
    }
    if i > 0 {
      AlignedBound(i, l);
    }
  }

  lemma {:induction false} AlignedBound(i: nat, l: nat)
    requires i > 0 && Aligned(i, l)
    ensures l <= Valuation(i)
  {
    if l > 0 {
      AlignedBound(i / 2, l - 1);
    }
  }

  /** Aligned blocks of at most the largest order, one after the other from `i` to `end`. */
  ghost predicate Chain(t: seq<Block>, i: nat, end: nat, top: nat) {
    if t == [] then i == end
    else
      && t[0].head == i && t[0].level <= top && Aligned(i, t[0].level) && i + Pow2(t[0].level) <= end
      && Chain(t[1..], i + Pow2(t[0].level), end, top)
  }

  /** The blocks are aligned, inside the range, one after the other without a gap, and
    * reach from the first page exactly to the end. */
  lemma {:induction false} TilesExact(i: nat, end: nat, top: nat)
    requires i <= end
    ensures Chain(Tiles(i, end, top), i, end, top)
    decreases end - i
  {
    if i < end {
      TileFits(i, end, top);
      TilesExact(i + Pow2(TileOrder(i, end - i, top)), end, top);
    }
  }

  ghost predicate InTiles(t: seq<Block>, p: nat) {
    exists k :: 0 <= k < |t| && In(p, t[k].head, t[k].level)
  }

  lemma InTilesCons(b: Block, rest: seq<Block>, p: nat)
    ensures InTiles([b] + rest, p) <==> In(p, b.head, b.level) || InTiles(rest, p)
  {
    var t := [b] + rest;
    assert t[0] == b;
    if InTiles(rest, p) {
      var k :| 0 <= k < |rest| && In(p, rest[k].head, rest[k].level);
      assert t[k + 1] == rest[k];
    }
    if InTiles(t, p) {
      var k :| 0 <= k < |t| && In(p, t[k].head, t[k].level);
      assert k > 0 ==> t[k] == rest[k - 1];
    }
  }

  /** The pages of the blocks are exactly the pages of the range. */
  lemma {:induction false} TilesCover(i: nat, end: nat, top: nat, p: nat)
    ensures i <= p < end <==> InTiles(Tiles(i, end, top), p)
    decreases end - i
  {
    if i < end {
      var o := TileOrder(i, end - i, top);
      TileFits(i, end, top);
      TilesCover(i + Pow2(o), end, top, p);
      InTilesCons(Block(i, o), Tiles(i + Pow2(o), end, top), p);
    }
  }
}
