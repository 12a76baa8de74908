/** What full coalescing gives the buddy allocator: allocation is complete, the free lists are
  * a function of the set of free pages, and freeing undoes allocating.
  */
module BuddyTheorems {
  import opened BuddySpec
  import opened Sequences
  import opened Numeric

  // ----- completeness

  /** All pages of the block are free. */
  ghost predicate WhollyFree(s: State, i: nat, l: nat) {
    forall p :: In(p, i, l) ==> FreePage(s, p)
  }

  /** `j` of level `m` is a free block that holds the block. */
  predicate Holds(s: State, j: nat, m: nat, i: nat, l: nat) {
    IsFree(s, j, m) && l <= m && j <= i && i + Pow2(l) <= j + Pow2(m)
  }

  /** Free blocks that hold the two halves: one of them holds the whole. */
  lemma HoldsWhole(s: State, busy: set<Block>, i: nat, k: nat, j1: nat, m1: nat, j2: nat, m2: nat)
    requires Ready(s, busy) && Aligned(i, k + 1) && k + 1 < |s.free|
    requires Holds(s, j1, m1, i, k) && Holds(s, j2, m2, i + Pow2(k), k)
    ensures Holds(s, j1, m1, i, k + 1) || Holds(s, j2, m2, i, k + 1)
  {
    Halves(i, k);
    assert BlockOk(s, j1, m1) && BlockOk(s, j2, m2) by {
      assert Known(s, busy + {}, j1, m1) && Known(s, busy + {}, j2, m2);
    }
    if m1 > k {
      NestedOrDisjoint(j1, m1, i, k + 1);
    } else if m2 > k {
      NestedOrDisjoint(j2, m2, i, k + 1);
    } else {
      assert false;
    }
  }

  lemma FreePageHolds(s: State, i: nat) returns (j: nat, m: nat)
    requires WhollyFree(s, i, 0)
    ensures Holds(s, j, m, i, 0)
  {
    assert In(i, i, 0) && FreePage(s, i);
    j, m :| Known(s, {}, j, m) && In(i, j, m);
  }

  lemma WhollyFreeHalves(s: State, i: nat, l: nat)
    requires l > 0 && WhollyFree(s, i, l)
    ensures WhollyFree(s, i, l - 1) && WhollyFree(s, i + Pow2(l - 1), l - 1)
  {
  }

  /** Because free buddies are always merged, a wholly free block lies in one free block. */
  lemma {:induction false} FreeBlockHolds(s: State, busy: set<Block>, i: nat, l: nat) returns (j: nat, m: nat)
    requires Ready(s, busy) && Aligned(i, l) && l < |s.free| && WhollyFree(s, i, l)
    ensures Holds(s, j, m, i, l)
    decreases l
  {
    hide Ready, WhollyFree, Aligned, Holds;
    if l == 0 {
      j, m := FreePageHolds(s, i);
    } else {
      Halves(i, l - 1);
      WhollyFreeHalves(s, i, l);
      j, m := FreeBlockHolds(s, busy, i, l - 1);
      var j2, m2 := FreeBlockHolds(s, busy, i + Pow2(l - 1), l - 1);
      HoldsWhole(s, busy, i, l - 1, j, m, j2, m2);
      if !Holds(s, j, m, i, l) {
        j, m := j2, m2;
      }
    }
  }

  /** A wholly free aligned run of `2^order` pages inside the zone. */
  ghost predicate Available(s: State, order: nat) {
    exists i: nat :: BlockOk(s, i, order) && WhollyFree(s, i, order)
  }

  /** Allocation is complete: for an order below the number of levels it fails exactly
    * when there is no free aligned run; a larger order always fails. */
  lemma AllocationComplete(s: State, busy: set<Block>, order: nat)
    requires Ready(s, busy)
    ensures CanAllocate(s, order) <==> order < |s.free| && Available(s, order)
  {
    if CanAllocate(s, order) {
      AllocatedWasFree(s, busy, order);
    }
    if order < |s.free| && Available(s, order) {
      var i: nat :| BlockOk(s, i, order) && WhollyFree(s, i, order);
      var j, m := FreeBlockHolds(s, busy, i, order);
      assert s.free[m] != [];
    }
  }

  /** A wholly free aligned block is enough to be served. */
  lemma ServedWhole(s: State, busy: set<Block>, i: nat, order: nat)
    requires Ready(s, busy) && order < |s.free| && i % Pow2(order) == 0
    requires s.offset <= i && i + Pow2(order) <= s.offset + |s.level|
    requires forall p: nat :: i <= p < i + Pow2(order) ==> FreePage(s, p)
    ensures CanAllocate(s, order)
  {
    hide FreePage, Ready, Pow2, Aligned;
    AlignedIsDivisible(i, order);
    assert BlockOk(s, i, order) && WhollyFree(s, i, order);
    AllocationComplete(s, busy, order);
  }

  /** The block handed out was wholly free. */
  lemma AllocatedWasFree(s: State, busy: set<Block>, order: nat)
    requires Ready(s, busy) && CanAllocate(s, order)
    ensures BlockOk(s, Chosen(s, order), order) && WhollyFree(s, Chosen(s, order), order)
  {
    var i, l := Chosen(s, order), FirstLevel(s, order);
    ChosenOk(s, busy, order);
    AlignedWeaken(i, l, order);
    Pow2Monotone(order, l);
    assert Known(s, {}, i, l);
    assert forall p :: In(p, i, order) ==> In(p, i, l);
  }

  /** Allocation takes exactly the pages of the block off the free pages. */
  lemma AllocateFreePages(s: State, busy: set<Block>, order: nat, p: nat)
    requires Ready(s, busy) && CanAllocate(s, order)
    ensures BlockOk(s, Chosen(s, order), FirstLevel(s, order))
    ensures FreePage(Allocate(s, order), p) <==> FreePage(s, p) && !In(p, Chosen(s, order), order)
  {
    var b := Block(Chosen(s, order), order);
    AllocateInv(s, busy, order);
    AllocatedWasFree(s, busy, order);
    assert busy + {} == busy && busy + {b} + {} == busy + {b};
    FreeOrOut(s, busy, p);
    FreeOrOut(Allocate(s, order), busy + {b}, p);
    InBlocksMore(busy, b, p);
  }

  /** Freeing makes exactly the pages of the block free. */
  lemma FreeFreePages(s: State, busy: set<Block>, i: nat, l: nat, p: nat)
    requires Ready(s, busy) && MayFree(s, busy, i, l)
    ensures BlockOk(s, i, l)
    ensures FreePage(FreeAt(s, i, l), p) <==> FreePage(s, p) || In(p, i, l)
  {
    var b := Block(i, l);
    FreeInv(s, busy, i, l);
    assert busy + {} == busy && busy - {b} + {} == busy - {b};
    FreeOrOut(s, busy, p);
    FreeOrOut(FreeAt(s, i, l), busy - {b}, p);
    FreedLeaves(s, busy, i, l, p);
    if b in busy {
      assert busy - {b} + {b} == busy;
      InBlocksMore(busy - {b}, b, p);
    } else {
      assert busy - {b} == busy;
    }
  }

  lemma InBlocksMore(out: set<Block>, b: Block, p: nat)
    ensures InBlocks(out + {b}, p) <==> InBlocks(out, p) || In(p, b.head, b.level)
  {
    if In(p, b.head, b.level) {
      assert b in out + {b};
    }
    if InBlocks(out, p) {
      var c :| c in out && In(p, c.head, c.level);
      assert c in out + {b};
    }
  }

  /** A page of a block that is freed is in no other busy block. */
  lemma FreedLeaves(s: State, busy: set<Block>, i: nat, l: nat, p: nat)
    requires Ready(s, busy) && MayFree(s, busy, i, l)
    ensures In(p, i, l) ==> !InBlocks(busy - {Block(i, l)}, p)
  {
    assert busy + {} == busy;
    assert Block(i, l) in busy ==> Known(s, busy, i, l);
    forall c | c in busy - {Block(i, l)}
      ensures In(p, i, l) ==> !In(p, c.head, c.level)
    {
      assert c == Block(c.head, c.level) && Known(s, busy, c.head, c.level);
      assert In(p, c.head, c.level) ==> Covered(s, busy, p);
    }
  }

  /** Freeing pages that were not managed leaves the busy blocks alone. */
  lemma FreeNewPages(s: State, busy: set<Block>, i: nat, l: nat)
    requires Ready(s, busy) && BlockOk(s, i, l) && forall p: nat :: In(p, i, l) ==> !Covered(s, busy, p)
    ensures busy - {Block(i, l)} == busy
    ensures forall p: nat :: FreePage(FreeAt(s, i, l), p) <==> FreePage(s, p) || In(p, i, l)
    ensures forall p: nat :: Covered(FreeAt(s, i, l), busy, p) <==> Covered(s, busy, p) || In(p, i, l)
  {
    assert Block(i, l) !in busy by {
      assert In(i, i, l);
      assert Block(i, l) in busy ==> Known(s, busy, i, l);
    }
    assert busy - {Block(i, l)} == busy;
    hide Ready, FreePage, Covered;
    FreeInv(s, busy, i, l);
    forall p: nat
      ensures FreePage(FreeAt(s, i, l), p) <==> FreePage(s, p) || In(p, i, l)
    {
      FreeFreePages(s, busy, i, l, p);
    }
  }

  // ----- the free lists are a function of the set of free pages

  /** The block is wholly free and its parent, if there is a level for it, is not. */
  ghost predicate MaximalFree(s: State, i: nat, l: nat) {
    && BlockOk(s, i, l) && WhollyFree(s, i, l)
    && (l + 1 == |s.free| || !WhollyFree(s, Min(i, FlipBit(i, l)), l + 1))
  }

  lemma ParentHoldsBoth(i: nat, l: nat)
    requires Aligned(i, l)
    ensures var h := Min(i, FlipBit(i, l)); Aligned(h, l + 1) && h <= i && i + Pow2(l) <= h + Pow2(l + 1)
  {
    BuddyFacts(i, l);
    Halves(Min(i, FlipBit(i, l)), l);
  }

  /** A free block that holds another free block is that block. */
  lemma FreeBlocksDistinct(s: State, busy: set<Block>, i: nat, l: nat, j: nat, m: nat)
    requires Ready(s, busy) && IsFree(s, i, l) && Holds(s, j, m, i, l)
    ensures j == i && m == l
  {
    assert Known(s, busy + {}, i, l) && Known(s, busy + {}, j, m);
  }

  lemma HeldIsWhollyFree(s: State, j: nat, m: nat, i: nat, l: nat)
    requires Holds(s, j, m, i, l)
    ensures WhollyFree(s, i, l)
  {
    assert Known(s, {}, j, m);
    assert forall p: nat :: In(p, i, l) ==> In(p, j, m);
  }

  lemma FreeIsMaximal(s: State, busy: set<Block>, i: nat, l: nat)
    requires Ready(s, busy) && IsFree(s, i, l)
    ensures MaximalFree(s, i, l)
  {
    HeldIsWhollyFree(s, i, l, i, l);
    assert Known(s, busy + {}, i, l);
    ParentHoldsBoth(i, l);
    if l + 1 < |s.free| && WhollyFree(s, Min(i, FlipBit(i, l)), l + 1) {
      var j, m := FreeBlockHolds(s, busy, Min(i, FlipBit(i, l)), l + 1);
      FreeBlocksDistinct(s, busy, i, l, j, m);
    }
  }

  lemma MaximalIsFree(s: State, busy: set<Block>, i: nat, l: nat)
    requires Ready(s, busy) && MaximalFree(s, i, l)
    ensures IsFree(s, i, l)
  {
    var j, m := FreeBlockHolds(s, busy, i, l);
    assert BlockOk(s, j, m) by {
      assert Known(s, busy + {}, j, m);
    }
    if m > l {
      ParentHoldsBoth(i, l);
      NestedOrDisjoint(j, m, Min(i, FlipBit(i, l)), l + 1);
      HeldIsWhollyFree(s, j, m, Min(i, FlipBit(i, l)), l + 1);
    }
  }

  /** A block is on the free list of its level exactly when it is wholly free and its
    * parent, if there is a level for it, is not. */
  lemma FreeListsAreCanonical(s: State, busy: set<Block>, i: nat, l: nat)
    requires Ready(s, busy)
    ensures IsFree(s, i, l) <==> MaximalFree(s, i, l)
  {
    if IsFree(s, i, l) {
      FreeIsMaximal(s, busy, i, l);
    } else if MaximalFree(s, i, l) {
      MaximalIsFree(s, busy, i, l);
    }
  }

  /** Two allocators over the same zone with the same free pages have, level by level,
    * the same blocks on their free lists, whatever their histories. */
  lemma SameFreePagesSameLists(s: State, busy: set<Block>, t: State, busy': set<Block>, l: nat)
    requires Ready(s, busy) && Ready(t, busy') && SameZone(s, t) && l < |s.free|
    requires forall p :: FreePage(s, p) <==> FreePage(t, p)
    ensures multiset(s.free[l]) == multiset(t.free[l])
  {
    forall i: nat
      ensures IsFree(s, i, l) <==> IsFree(t, i, l)
    {
      FreeListsAreCanonical(s, busy, i, l);
      FreeListsAreCanonical(t, busy', i, l);
      assert WhollyFree(s, i, l) <==> WhollyFree(t, i, l);
    }
    assert forall x: nat :: (x in s.free[l] <==> IsFree(s, x, l)) && (x in t.free[l] <==> IsFree(t, x, l));
    SameElements(s.free[l], t.free[l]);
  }

  lemma {:induction false} Once(q: seq<nat>)
    requires NoDuplicates(q)
    ensures forall x :: multiset(q)[x] == if x in q then 1 else 0
  {
    if q != [] {
      assert q == [q[0]] + q[1..];
      Once(q[1..]);
      assert q[0] !in q[1..];
    }
  }

  lemma SameElements(q: seq<nat>, r: seq<nat>)
    requires NoDuplicates(q) && NoDuplicates(r) && forall x: nat :: x in q <==> x in r
    ensures multiset(q) == multiset(r)
  {
    Once(q);
    Once(r);
  }

  // ----- freeing undoes allocating

  lemma {:induction false} LowerBuddy(i: nat, l: nat, j: nat)
    requires j < l && Aligned(i, l)
    ensures FlipBit(i, j) == i + Pow2(j) && Pow2(j) < Pow2(l)
  {
    AlignedWeaken(i, l, j + 1);
    UpperHalf(i, j);
    Pow2StrictlyMonotone(j, l);
  }

  /** The buddies at levels `to` up to `from` carry the tags that splitting gave them. */
  ghost predicate BuddiesTagged(s: State, i: nat, from: nat, to: nat) {
    && Shape(s)
    && forall j: nat :: to <= j < from ==>
         InZone(s, FlipBit(i, j)) && Flagged(s, FlipBit(i, j)) && LevelOf(s, FlipBit(i, j)) == j
  }

  /** The free lists with the buddies at levels `to` up to `from` pushed. */
  ghost predicate BuddiesPushed(s: State, t: State, i: nat, from: nat, to: nat)
    requires |s.free| == |t.free|
  {
    forall j: nat :: j < |s.free| ==>
      t.free[j] == if to <= j < from then [FlipBit(i, j)] + s.free[j] else s.free[j]
  }

  /** Splitting leaves the descriptors outside the block alone. */
  lemma {:induction false} SplitKeepsTags(s: State, i: nat, from: nat, to: nat, p: nat)
    requires Shape(s) && BlockOk(s, i, from) && InZone(s, p) && (p <= i || i + Pow2(from) <= p)
    ensures Flagged(Split(s, i, from, to), p) <==> Flagged(s, p)
    ensures LevelOf(Split(s, i, from, to), p) == LevelOf(s, p)
    decreases from
  {
    if from > to {
      LowerBuddy(i, from, from - 1);
      UpperHalf(i, from - 1);
      SplitKeepsTags(Push(s, FlipBit(i, from - 1), from - 1), i, from - 1, to, p);
    }
  }

  lemma {:induction false} SplitTags(s: State, i: nat, from: nat, to: nat)
    requires Shape(s) && BlockOk(s, i, from)
    ensures BuddiesTagged(Split(s, i, from, to), i, from, to)
    decreases from
  {
    if from > to {
      var b := FlipBit(i, from - 1);
      LowerBuddy(i, from, from - 1);
      UpperHalf(i, from - 1);
      SplitTags(Push(s, b, from - 1), i, from - 1, to);
      SplitKeepsTags(Push(s, b, from - 1), i, from - 1, to, b);
    }
  }

  lemma {:induction false} SplitPushes(s: State, i: nat, from: nat, to: nat)
    requires Shape(s) && BlockOk(s, i, from)
    ensures BuddiesPushed(s, Split(s, i, from, to), i, from, to)
    decreases from
  {
    if from > to {
      UpperHalf(i, from - 1);
      SplitPushes(Push(s, FlipBit(i, from - 1), from - 1), i, from - 1, to);
    }
  }

  lemma UndoOnce(s: State, t: State, i: nat, from: nat, to: nat)
    requires Shape(s) && SameZone(s, t) && BlockOk(s, i, from) && to < from
    requires BuddiesTagged(t, i, from, to) && BuddiesPushed(s, t, i, from, to)
    ensures Merges(t, i, to) && Min(i, FlipBit(i, to)) == i
    ensures BuddiesPushed(s, Remove(t, FlipBit(i, to), to), i, from, to + 1)
    ensures BuddiesTagged(Remove(t, FlipBit(i, to), to), i, from, to + 1)
    ensures SameZone(s, Remove(t, FlipBit(i, to), to)) && InZone(Remove(t, FlipBit(i, to), to), i)
    ensures Merges(Remove(t, FlipBit(i, to), to), i, from) <==> Merges(t, i, from)
    ensures FreeAt(t, i, to) == FreeAt(Remove(t, FlipBit(i, to), to), i, to + 1)
  {
    hide FlipBit, Pow2, Aligned;
    LowerBuddy(i, from, to);
    WithoutFirst<nat>(FlipBit(i, to), s.free[to]);
  }

  /** Freeing the low part of a split block takes the pushed buddies off again. */
  lemma {:induction false} MergeUndoesSplit(s: State, t: State, i: nat, from: nat, to: nat)
    requires Shape(s) && SameZone(s, t) && BlockOk(s, i, from) && to <= from
    requires BuddiesTagged(t, i, from, to) && BuddiesPushed(s, t, i, from, to) && !Merges(t, i, from) && InZone(t, i)
    ensures FreeAt(t, i, to).free == s.free[from := [i] + s.free[from]]
    decreases from - to
  {
    hide Aligned, BuddiesPushed, Flagged, FlipBit, FreeAt, InZone, LevelOf, Merges, Min, Pow2, Remove, Shape;
    if to < from {
      UndoOnce(s, t, i, from, to);
      MergeUndoesSplit(s, Remove(t, FlipBit(i, to), to), i, from, to + 1);
    } else {
      assert Shape(t) by {
      }
      UndoEnd(s, t, i, from);
    }
  }

  lemma UndoEnd(s: State, t: State, i: nat, l: nat)
    requires Shape(s) && Shape(t) && SameZone(s, t) && InZone(t, i) && l < |s.free|
    requires BuddiesPushed(s, t, i, l, l) && !Merges(t, i, l)
    ensures FreeAt(t, i, l).free == s.free[l := [i] + s.free[l]]
  {
    assert t.free == s.free;
  }

  /** The chosen block taken off its list does not merge with its buddy. */
  lemma ChosenStays(s: State, busy: set<Block>, order: nat)
    requires Ready(s, busy) && CanAllocate(s, order)
    ensures !Merges(Pop(s, FirstLevel(s, order)), Chosen(s, order), FirstLevel(s, order))
  {
    var l, i := FirstLevel(s, order), Chosen(s, order);
    PopFree(s, l);
    TakeStep(s, Pop(s, l), busy, {}, i, l);
    assert {} + {Block(i, l)} == {Block(i, l)};
    if l + 1 < |s.free| {
      MergeTest(Pop(s, l), busy, i, l);
    }
  }

  /** Allocating and freeing what was allocated restores every free list, order included:
    * merging stops at precisely the level the block was split from. */
  lemma FreeUndoesAllocate(s: State, busy: set<Block>, order: nat)
    requires Ready(s, busy) && CanAllocate(s, order)
    ensures BlockOk(s, Chosen(s, order), FirstLevel(s, order))
    ensures var i, t := Chosen(s, order), Allocate(s, order);
      Shape(t) && InZone(t, i) && LevelOf(t, i) == order && FreeAt(t, i, order).free == s.free
  {
    var l, i := FirstLevel(s, order), Chosen(s, order);
    ChosenOk(s, busy, order);
    ChosenStays(s, busy, order);
    var s1 := Pop(s, l);
    UndoSplitAndClaim(s1, i, l, order);
    assert s.free[l] == [i] + s1.free[l];
    assert s1.free[l := [i] + s1.free[l]] == s.free;
  }

  lemma UndoSplitAndClaim(s: State, i: nat, from: nat, to: nat)
    requires Shape(s) && BlockOk(s, i, from) && to <= from && !Merges(s, i, from)
    ensures FreeAt(Claim(Split(s, i, from, to), i, to), i, to).free == s.free[from := [i] + s.free[from]]
  {
    hide Aligned, BuddiesPushed, BuddiesTagged, Claim, FreeAt, InZone, Merges, Pow2, SameZone, Shape, Split;
    var t := Split(s, i, from, to);
    SplitTags(s, i, from, to);
    SplitPushes(s, i, from, to);
    SplitStays(s, i, from, to);
    ClaimStays(s, t, i, from, to);
    MergeUndoesSplit(s, Claim(t, i, to), i, from, to);
  }

  /** Splitting does not make the block merge with its buddy. */
  lemma SplitStays(s: State, i: nat, from: nat, to: nat)
    requires Shape(s) && BlockOk(s, i, from) && to <= from && !Merges(s, i, from)
    ensures SameZone(s, Split(s, i, from, to)) && !Merges(Split(s, i, from, to), i, from)
  {
    hide Split, FlipBit, Pow2, Aligned;
    BuddyFacts(i, from);
    if InZone(s, FlipBit(i, from)) {
      SplitKeepsTags(s, i, from, to, FlipBit(i, from));
    }
  }

  lemma ClaimStays(s: State, t: State, i: nat, from: nat, to: nat)
    requires Shape(s) && BlockOk(s, i, from) && to <= from && SameZone(s, t)
    requires BuddiesTagged(t, i, from, to) && BuddiesPushed(s, t, i, from, to) && !Merges(t, i, from)
    ensures InZone(t, i) && InZone(Claim(t, i, to), i) && SameZone(s, Claim(t, i, to))
    ensures BuddiesTagged(Claim(t, i, to), i, from, to)
    ensures BuddiesPushed(s, Claim(t, i, to), i, from, to) && !Merges(Claim(t, i, to), i, from)
  {
    hide FlipBit, Pow2, Aligned;
    BuddyFacts(i, from);
    forall j: nat | to <= j < from
      ensures FlipBit(i, j) != i
    {
      LowerBuddy(i, from, j);
    }
  }
}
