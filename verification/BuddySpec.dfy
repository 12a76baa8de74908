/** The buddy system of `kernel/memory/src/buddy.rs` (and of `Zone` in
  * `memory/memory.cc`) as functions on values.
  *
  * A `State` is what the allocator stores: for every page of the zone the level and
  * FREE bit of its `Page`, and for every level the free list, front first, as page
  * indices.  `Allocate` and `FreeAt` compute on it exactly what the code does.  The
  * set of blocks handed out, which the code does not store, is the ghost `busy`.
  */
module BuddySpec {
  import opened Numeric
  import opened Sequences

  datatype Block = Block(head: nat, level: nat)

  datatype State = State(offset: nat, level: seq<nat>, flag: seq<bool>, free: seq<seq<nat>>)

  // ----- the code

  predicate InZone(s: State, p: nat) {
    s.offset <= p < s.offset + |s.level|
  }

  predicate Shape(s: State) {
    |s.level| == |s.flag| && |s.free| > 0
  }

  function LevelOf(s: State, p: nat): nat
    requires InZone(s, p)
  {
    s.level[p - s.offset]
  }

  predicate Flagged(s: State, p: nat)
    requires Shape(s) && InZone(s, p)
  {
    s.flag[p - s.offset]
  }

  /** `set_level`, `set_free`, and `push` on the free list of the level. */
  function Push(s: State, p: nat, l: nat): State
    requires Shape(s) && InZone(s, p) && l < |s.free|
  {
    s.(level := s.level[p - s.offset := l],
       flag := s.flag[p - s.offset := true],
       free := s.free[l := [p] + s.free[l]])
  }

  /** `remove` from the free list of the level; the FREE bit stays. */
  function Remove(s: State, p: nat, l: nat): State
    requires l < |s.free|
  {
    s.(free := s.free[l := Without<nat>(s.free[l], p)])
  }

  function Min(a: nat, b: nat): nat {
    if a <= b then a else b
  }

  /** The loop condition of `free_pages_at_level`: the block is to be merged with its buddy. */
  predicate Merges(s: State, i: nat, l: nat)
    requires Shape(s)
  {
    && l + 1 < |s.free|
    && InZone(s, FlipBit(i, l))
    && Flagged(s, FlipBit(i, l))
    && LevelOf(s, FlipBit(i, l)) == l
  }

  /** `free_pages_at_level`. */
  function FreeAt(s: State, i: nat, l: nat): State
    requires Shape(s) && InZone(s, i) && l < |s.free|
    decreases |s.free| - l
  {
    if Merges(s, i, l)
    then FreeAt(Remove(s, FlipBit(i, l), l), Min(i, FlipBit(i, l)), l + 1)
    else Push(s, i, l)
  }

  /** The first level from `l` on whose free list is not empty, `|s.free|` if there is none. */
  function FirstLevel(s: State, l: nat): (r: nat)
    decreases |s.free| - l
    ensures r < |s.free| ==> l <= r && s.free[r] != []
    ensures forall k :: l <= k < r && k < |s.free| ==> s.free[k] == []
    ensures l <= |s.free| ==> l <= r <= |s.free|
    ensures l > |s.free| ==> r == l
  {
    if l >= |s.free| || s.free[l] != [] then l else FirstLevel(s, l + 1)
  }

  function Pop(s: State, l: nat): State
    requires l < |s.free| && s.free[l] != []
  {
    s.(free := s.free[l := s.free[l][1..]])
  }

  /** `split_and_return`: every level from `from - 1` down to `to` gets the buddy. */
  function Split(s: State, i: nat, from: nat, to: nat): (r: State)
    requires Shape(s) && BlockOk(s, i, from)
    ensures Shape(r) && |r.free| == |s.free| && |r.level| == |s.level| && r.offset == s.offset
    decreases from
  {
    if from <= to then s
    else
      UpperHalf(i, from - 1);
      Split(Push(s, FlipBit(i, from - 1), from - 1), i, from - 1, to)
  }

  /** `set_busy` and `set_level` on the page that is handed out. */
  function Claim(s: State, i: nat, l: nat): State
    requires Shape(s) && InZone(s, i)
  {
    s.(flag := s.flag[i - s.offset := false], level := s.level[i - s.offset := l])
  }

  /** The block popped by `allocate_pages`, if any. */
  predicate CanAllocate(s: State, order: nat) {
    FirstLevel(s, order) < |s.free|
  }

  function Chosen(s: State, order: nat): nat
    requires CanAllocate(s, order)
  {
    s.free[FirstLevel(s, order)][0]
  }

  /** `allocate_pages` when a block is found. */
  function Allocate(s: State, order: nat): State
    requires Shape(s) && CanAllocate(s, order)
    requires BlockOk(s, Chosen(s, order), FirstLevel(s, order))
  {
    var l, i := FirstLevel(s, order), Chosen(s, order);
    Claim(Split(Pop(s, l), i, l, order), i, order)
  }

  // ----- blocks

  /** An aligned block inside the zone. */
  predicate BlockOk(s: State, i: nat, l: nat) {
    l < |s.free| && s.offset <= i && Aligned(i, l) && i + Pow2(l) <= s.offset + |s.level|
  }

  predicate In(p: nat, i: nat, l: nat) {
    i <= p < i + Pow2(l)
  }

  predicate Apart(i: nat, l: nat, j: nat, m: nat) {
    i + Pow2(l) <= j || j + Pow2(m) <= i
  }

  predicate IsFree(s: State, i: nat, l: nat) {
    l < |s.free| && i in s.free[l]
  }

  /** A block is accounted for when it is free or in `out`, the blocks not on a list. */
  predicate Known(s: State, out: set<Block>, i: nat, l: nat) {
    IsFree(s, i, l) || Block(i, l) in out
  }

  ghost predicate Covered(s: State, out: set<Block>, p: nat) {
    exists j: nat, m: nat :: Known(s, out, j, m) && In(p, j, m)
  }

  /** All accounted blocks are well placed and pairwise disjoint, no block is on a list
    * twice, and no two free buddies are left unmerged. */
  ghost predicate Geometry(s: State, out: set<Block>) {
    && Shape(s)
    && (forall i: nat, l: nat :: Known(s, out, i, l) ==> BlockOk(s, i, l))
    && (forall i: nat, l: nat, j: nat, m: nat :: Known(s, out, i, l) && Known(s, out, j, m) && (i != j || l != m) ==>
      Apart(i, l, j, m))
    && (forall l :: 0 <= l < |s.free| ==> NoDuplicates(s.free[l]))
    && (forall b :: b in out ==> !IsFree(s, b.head, b.level))
    && (forall i: nat, l: nat :: IsFree(s, i, l) && l + 1 < |s.free| ==> !IsFree(s, FlipBit(i, l), l))
  }

  /** The page descriptors: the head of a free block is flagged with its level, the head
    * of a busy block is not flagged and carries its level, and a flag on any other page
    * is stale: the page lies inside some block. */
  ghost predicate Tags(s: State, busy: set<Block>, out: set<Block>)
    requires Shape(s)
  {
    && (forall i: nat, l: nat :: IsFree(s, i, l) ==> InZone(s, i) && Flagged(s, i) && LevelOf(s, i) == l)
    && (forall b :: b in busy ==> InZone(s, b.head) && !Flagged(s, b.head) && LevelOf(s, b.head) == b.level)
    && (forall p: nat :: InZone(s, p) && Flagged(s, p) ==> Covered(s, out, p))
  }

  /** The invariant, with a set `hand` of blocks in the middle of an operation. */
  ghost predicate Inv(s: State, busy: set<Block>, hand: set<Block>) {
    Geometry(s, busy + hand) && Tags(s, busy, busy + hand)
  }

  // ----- what the list operations do to the free blocks

  lemma PopFree(s: State, l: nat)
    requires l < |s.free| && s.free[l] != [] && NoDuplicates(s.free[l])
    ensures forall j: nat, m: nat :: IsFree(Pop(s, l), j, m) <==> IsFree(s, j, m) && !(j == s.free[l][0] && m == l)
    ensures NoDuplicates(Pop(s, l).free[l])
  {
    var q := s.free[l];
    assert q == [q[0]] + q[1..];
  }

  lemma RemoveFree(s: State, p: nat, l: nat)
    requires l < |s.free| && NoDuplicates(s.free[l])
    ensures forall j: nat, m: nat :: IsFree(Remove(s, p, l), j, m) <==> IsFree(s, j, m) && !(j == p && m == l)
    ensures NoDuplicates(Remove(s, p, l).free[l])
  {
    WithoutFacts<nat>(s.free[l], p);
  }

  lemma PushFree(s: State, p: nat, l: nat)
    requires Shape(s) && InZone(s, p) && l < |s.free| && NoDuplicates(s.free[l]) && !IsFree(s, p, l)
    ensures forall j: nat, m: nat :: IsFree(Push(s, p, l), j, m) <==> IsFree(s, j, m) || (j == p && m == l)
    ensures NoDuplicates(Push(s, p, l).free[l])
  {
  }

  /** Pages stay covered when no accounted block is lost. */
  lemma KeepCovered(s: State, out: set<Block>, t: State, out': set<Block>)
    requires forall j: nat, m: nat :: Known(s, out, j, m) ==> Known(t, out', j, m)
    ensures forall p :: Covered(s, out, p) ==> Covered(t, out', p)
  {
    forall p | Covered(s, out, p)
      ensures Covered(t, out', p)
    {
      var j: nat, m: nat :| Known(s, out, j, m) && In(p, j, m);
      assert Known(t, out', j, m);
    }
  }

  ghost predicate SamePages(s: State, out: set<Block>, t: State, out': set<Block>) {
    forall p :: Covered(s, out, p) <==> Covered(t, out', p)
  }

  lemma SameCovered(s: State, out: set<Block>, t: State, out': set<Block>)
    requires forall j: nat, m: nat :: Known(s, out, j, m) <==> Known(t, out', j, m)
    ensures SamePages(s, out, t, out')
  {
    KeepCovered(s, out, t, out');
    KeepCovered(t, out', s, out);
  }

  // ----- the steps of the two operations keep the invariant

  predicate SameZone(s: State, t: State) {
    t.offset == s.offset && |t.level| == |s.level| && |t.free| == |s.free|
  }

  /** `t` is `s` with the block taken off its list. */
  ghost predicate Taken(s: State, t: State, i: nat, l: nat) {
    && t.offset == s.offset && t.level == s.level && t.flag == s.flag && |t.free| == |s.free|
    && (forall j: nat, m: nat :: IsFree(t, j, m) <==> IsFree(s, j, m) && !(j == i && m == l))
    && (forall m :: 0 <= m < |t.free| ==> NoDuplicates(t.free[m]))
  }

  lemma TakeGeometry(s: State, t: State, out: set<Block>, out': set<Block>, i: nat, l: nat)
    requires Geometry(s, out) && IsFree(s, i, l) && Taken(s, t, i, l) && out' == out + {Block(i, l)}
    ensures Geometry(t, out') && Block(i, l) !in out
    ensures forall j: nat, m: nat :: Known(t, out', j, m) <==> Known(s, out, j, m)
  {
    assert forall j: nat, m: nat :: Known(t, out', j, m) <==> Known(s, out, j, m);
  }

  lemma TakeTags(s: State, t: State, busy: set<Block>, out: set<Block>, out': set<Block>, i: nat, l: nat)
    requires Shape(s) && Tags(s, busy, out) && Taken(s, t, i, l) && SamePages(s, out, t, out')
    ensures Tags(t, busy, out')
  {
    hide Covered, NoDuplicates;
  }

  lemma TakeStep(s: State, t: State, busy: set<Block>, hand: set<Block>, i: nat, l: nat)
    requires Inv(s, busy, hand) && IsFree(s, i, l) && Taken(s, t, i, l)
    ensures Inv(t, busy, hand + {Block(i, l)}) && Block(i, l) !in busy + hand
    ensures SamePages(s, busy + hand, t, busy + (hand + {Block(i, l)}))
  {
    var out, out' := busy + hand, busy + (hand + {Block(i, l)});
    TakeGeometry(s, t, out, out', i, l);
    SameCovered(s, out, t, out');
    TakeTags(s, t, busy, out, out', i, l);
  }

  lemma PushGeometry(s: State, out: set<Block>, i: nat, l: nat)
    requires Geometry(s, out) && Block(i, l) in out
    requires l + 1 < |s.free| ==> !IsFree(s, FlipBit(i, l), l)
    ensures BlockOk(s, i, l) && Geometry(Push(s, i, l), out - {Block(i, l)})
    ensures forall j: nat, m: nat :: Known(Push(s, i, l), out - {Block(i, l)}, j, m) <==> Known(s, out, j, m)
    ensures forall j: nat, m: nat :: Known(s, out, j, m) && !(j == i && m == l) ==> j != i
  {
    assert Known(s, out, i, l);
    PushFree(s, i, l);
    var t := Push(s, i, l);
    assert forall j: nat, m: nat :: Known(t, out - {Block(i, l)}, j, m) <==> Known(s, out, j, m);
    BuddyFacts(i, l);
    forall j: nat, m: nat | Known(s, out, j, m) && !(j == i && m == l)
      ensures j != i
    {
      assert Apart(i, l, j, m);
    }
    forall j: nat, m: nat | IsFree(s, j, m) && m == l && FlipBit(j, l) == i
      ensures FlipBit(i, l) == j
    {
      assert Known(s, out, j, m);
      BuddyFacts(j, l);
    }
  }

  lemma PushTags(s: State, busy: set<Block>, out: set<Block>, i: nat, l: nat)
    requires Shape(s) && Geometry(s, out) && busy <= out && Tags(s, busy, out) && Block(i, l) in out - busy
    requires BlockOk(s, i, l) && Geometry(Push(s, i, l), out - {Block(i, l)})
    requires forall j: nat, m: nat :: Known(Push(s, i, l), out - {Block(i, l)}, j, m) <==> Known(s, out, j, m)
    requires forall j: nat, m: nat :: Known(s, out, j, m) && !(j == i && m == l) ==> j != i
    ensures Tags(Push(s, i, l), busy, out - {Block(i, l)})
  {
    hide Geometry, SamePages, Covered, FlipBit, Aligned, Pow2;
    BlockInZone(s, i, l);
    var t, out' := Push(s, i, l), out - {Block(i, l)};
    PushCovers(s, out, i, l);
    forall b | b in busy
      ensures b.head != i
    {
      assert b == Block(b.head, b.level) && Known(s, out, b.head, b.level);
    }
    forall j: nat, m: nat | IsFree(t, j, m)
      ensures InZone(t, j) && Flagged(t, j) && LevelOf(t, j) == m
    {
      if j != i {
        assert IsFree(s, j, m);
      } else {
        assert m != l ==> IsFree(s, j, m) && Known(s, out, j, m);
      }
    }
  }

  lemma BlockInZone(s: State, i: nat, l: nat)
    requires BlockOk(s, i, l)
    ensures InZone(s, i)
  {
  }

  lemma PushCovers(s: State, out: set<Block>, i: nat, l: nat)
    requires Shape(s) && InZone(s, i) && l < |s.free| && Block(i, l) in out
    requires forall j: nat, m: nat :: Known(Push(s, i, l), out - {Block(i, l)}, j, m) <==> Known(s, out, j, m)
    ensures SamePages(s, out, Push(s, i, l), out - {Block(i, l)})
    ensures forall p: nat :: Covered(s, out, p) ==> Covered(Push(s, i, l), out - {Block(i, l)}, p)
    ensures Covered(Push(s, i, l), out - {Block(i, l)}, i)
  {
    var t, out' := Push(s, i, l), out - {Block(i, l)};
    SameCovered(s, out, t, out');
    assert Known(t, out', i, l) && In(i, i, l);
  }

  lemma PushStep(s: State, busy: set<Block>, hand: set<Block>, i: nat, l: nat)
    requires Inv(s, busy, hand) && Block(i, l) in hand && Block(i, l) !in busy
    requires l + 1 < |s.free| ==> !IsFree(s, FlipBit(i, l), l)
    ensures BlockOk(s, i, l) && Inv(Push(s, i, l), busy, hand - {Block(i, l)})
    ensures SamePages(s, busy + hand, Push(s, i, l), busy + (hand - {Block(i, l)}))
  {
    PushGeometry(s, busy + hand, i, l);
    PushTags(s, busy, busy + hand, i, l);
    SameCovered(s, busy + hand, Push(s, i, l), busy + hand - {Block(i, l)});
    assert busy + hand - {Block(i, l)} == busy + (hand - {Block(i, l)});
  }

  /** The halves of an aligned block. */
  lemma Halves(i: nat, l: nat)
    requires Aligned(i, l + 1)
    ensures Aligned(i, l) && FlipBit(i, l) == i + Pow2(l) && Aligned(i + Pow2(l), l)
    ensures Pow2(l + 1) == 2 * Pow2(l)
    ensures forall p :: In(p, i, l + 1) <==> In(p, i, l) || In(p, i + Pow2(l), l)
  {
    UpperHalf(i, l);
  }

  /** Exchanging a block for its halves, or back, covers the same pages. */
  lemma SameHalves(s: State, out: set<Block>, out': set<Block>, i: nat, l: nat)
    requires Aligned(i, l + 1) && Known(s, out, i, l + 1)
    requires Known(s, out', i, l) && Known(s, out', i + Pow2(l), l)
    requires forall j: nat, m: nat ::
      (Known(s, out', j, m) && !(m == l && (j == i || j == i + Pow2(l)))) <==>
      (Known(s, out, j, m) && !(j == i && m == l + 1))
    ensures SamePages(s, out, s, out')
  {
    Halves(i, l);
    forall p | Covered(s, out, p)
      ensures Covered(s, out', p)
    {
      var j: nat, m: nat :| Known(s, out, j, m) && In(p, j, m);
      if j == i && m == l + 1 {
        assert In(p, i, l) || In(p, i + Pow2(l), l);
      } else {
        assert Known(s, out', j, m);
      }
    }
    forall p | Covered(s, out', p)
      ensures Covered(s, out, p)
    {
      var j: nat, m: nat :| Known(s, out', j, m) && In(p, j, m);
      if m == l && (j == i || j == i + Pow2(l)) {
        assert In(p, i, l + 1);
      } else {
        assert Known(s, out, j, m);
      }
    }
  }

  lemma HalveGeometry(s: State, out: set<Block>, out': set<Block>, i: nat, l: nat)
    requires Geometry(s, out) && Block(i, l + 1) in out
    requires out' == out - {Block(i, l + 1)} + {Block(i, l), Block(i + Pow2(l), l)}
    ensures Geometry(s, out') && Aligned(i, l + 1)
    ensures Block(i, l) !in out && Block(i + Pow2(l), l) !in out && !IsFree(s, i, l + 1)
  {
    hide FlipBit, Pow2, Aligned;
    var b := i + Pow2(l);
    assert Known(s, out, i, l + 1);
    Halves(i, l);
    assert !Known(s, out, i, l) && !Known(s, out, b, l);
    assert forall j: nat, m: nat :: Known(s, out', j, m) <==>
      (Known(s, out, j, m) && !(j == i && m == l + 1)) || (j == i && m == l) || (j == b && m == l);
  }

  /** In the hand a block can be exchanged for its two halves. */
  lemma HalveStep(s: State, busy: set<Block>, i: nat, l: nat)
    requires Inv(s, busy, {Block(i, l + 1)}) && Block(i, l + 1) !in busy
    ensures Aligned(i, l + 1) && Inv(s, busy, {Block(i, l), Block(i + Pow2(l), l)})
    ensures Block(i, l) !in busy && Block(i + Pow2(l), l) !in busy
    ensures SamePages(s, busy + {Block(i, l + 1)}, s, busy + {Block(i, l), Block(i + Pow2(l), l)})
  {
    var out, out' := busy + {Block(i, l + 1)}, busy + {Block(i, l), Block(i + Pow2(l), l)};
    HalveGeometry(s, out, out', i, l);
    assert !IsFree(s, i, l + 1);
    SameHalves(s, out, out', i, l);
  }

  lemma FuseGeometry(s: State, out: set<Block>, out': set<Block>, i: nat, l: nat)
    requires Geometry(s, out) && Block(i, l) in out && Block(i + Pow2(l), l) in out
    requires Aligned(i, l + 1) && l + 1 < |s.free|
    requires out' == out - {Block(i, l), Block(i + Pow2(l), l)} + {Block(i, l + 1)}
    ensures Geometry(s, out') && Block(i, l + 1) !in out
    ensures !IsFree(s, i, l) && !IsFree(s, i + Pow2(l), l)
  {
    hide FlipBit, Aligned, Pow2;
    var b := i + Pow2(l);
    assert Known(s, out, i, l) && Known(s, out, b, l);
    Halves(i, l);
    assert !Known(s, out, i, l + 1);
    assert forall j: nat, m: nat :: Known(s, out', j, m) <==>
      (Known(s, out, j, m) && !(j == i && m == l) && !(j == b && m == l)) || (j == i && m == l + 1);
  }

  /** In the hand two buddies can be exchanged for their parent. */
  lemma FuseStep(s: State, busy: set<Block>, i: nat, l: nat)
    requires Inv(s, busy, {Block(i, l), Block(i + Pow2(l), l)}) && Aligned(i, l + 1) && l + 1 < |s.free|
    requires Block(i, l) !in busy && Block(i + Pow2(l), l) !in busy
    ensures Inv(s, busy, {Block(i, l + 1)}) && Block(i, l + 1) !in busy
    ensures SamePages(s, busy + {Block(i, l), Block(i + Pow2(l), l)}, s, busy + {Block(i, l + 1)})
  {
    var out, out' := busy + {Block(i, l), Block(i + Pow2(l), l)}, busy + {Block(i, l + 1)};
    assert !Known(s, out, i, l + 1) by {
      assert Known(s, out, i, l);
    }
    FuseGeometry(s, out, out', i, l);
    SameHalves(s, out', out, i, l);
  }

  /** The FREE bit is trusted only where it is not stale: while a block is being freed,
    * its buddy's page is flagged with the block's level exactly when the buddy is on
    * the free list of that level. */
  lemma MergeTest(s: State, busy: set<Block>, i: nat, l: nat)
    requires Inv(s, busy, {Block(i, l)}) && Block(i, l) !in busy && l + 1 < |s.free|
    ensures Merges(s, i, l) <==> IsFree(s, FlipBit(i, l), l)
  {
    var b, out := FlipBit(i, l), busy + {Block(i, l)};
    assert Known(s, out, i, l);
    if Merges(s, i, l) {
      assert Covered(s, out, b);
      var j: nat, m: nat :| Known(s, out, j, m) && In(b, j, m);
      BuddyIsHead(s, out, i, l, j, m);
      assert Block(b, m) !in busy;
      BuddyFacts(i, l);
    }
  }

  /** The block that holds the first page of the buddy of an accounted block starts there. */
  lemma BuddyIsHead(s: State, out: set<Block>, i: nat, l: nat, j: nat, m: nat)
    requires Geometry(s, out) && Known(s, out, i, l) && Known(s, out, j, m) && In(FlipBit(i, l), j, m)
    ensures j == FlipBit(i, l) && m <= l
  {
    BuddyFacts(i, l);
    if m <= l {
      NestedOrDisjoint(FlipBit(i, l), l, j, m);
    } else {
      ParentInside(i, l, j, m);
      assert false;
    }
  }

  /** A larger aligned block that holds the buddy of a block holds the block too. */
  lemma ParentInside(i: nat, l: nat, j: nat, m: nat)
    requires l < m && Aligned(i, l) && Aligned(j, m) && In(FlipBit(i, l), j, m)
    ensures j <= i && i + Pow2(l) <= j + Pow2(m)
  {
    BuddyFacts(i, l);
    var h := Min(i, FlipBit(i, l));
    assert Aligned(h, l + 1);
    Halves(h, l);
    NestedOrDisjoint(j, m, h, l + 1);
  }

  // ----- the operations keep the invariant

  /** The head of a block in the hand is on no list. */
  lemma HandUnlisted(s: State, out: set<Block>, i: nat, l: nat)
    requires Geometry(s, out) && Block(i, l) in out
    ensures forall m :: 0 <= m < |s.free| ==> i !in s.free[m]
  {
    assert Known(s, out, i, l);
    forall m | 0 <= m < |s.free|
      ensures !IsFree(s, i, m)
    {
      if IsFree(s, i, m) {
        assert Known(s, out, i, m);
        HeadsDiffer(s, out, i, l, i, m);
      }
    }
    assert forall m :: 0 <= m < |s.free| ==> (i in s.free[m] <==> IsFree(s, i, m));
  }

  lemma HandOk(s: State, busy: set<Block>, i: nat, l: nat)
    requires Inv(s, busy, {Block(i, l)})
    ensures Shape(s) && BlockOk(s, i, l)
  {
    assert Known(s, busy + {Block(i, l)}, i, l);
  }

  /** One round of the loop of `split_and_return`. */
  lemma SplitOnce(s: State, busy: set<Block>, i: nat, l: nat)
    requires Inv(s, busy, {Block(i, l + 1)}) && Block(i, l + 1) !in busy
    ensures BlockOk(s, i, l + 1) && BlockOk(s, i, l) && InZone(s, FlipBit(i, l))
    ensures forall m :: 0 <= m < |s.free| ==> FlipBit(i, l) !in s.free[m]
    ensures Inv(Push(s, FlipBit(i, l), l), busy, {Block(i, l)}) && Block(i, l) !in busy
    ensures SamePages(s, busy + {Block(i, l + 1)}, Push(s, FlipBit(i, l), l), busy + {Block(i, l)})
  {
    hide Inv;
    HandOk(s, busy, i, l + 1);
    HalveStep(s, busy, i, l);
    UpperHalf(i, l);
    PushUpper(s, busy, i, l);
  }

  lemma PushUpper(s: State, busy: set<Block>, i: nat, l: nat)
    requires Inv(s, busy, {Block(i, l), Block(i + Pow2(l), l)}) && Aligned(i, l + 1)
    requires Block(i, l) !in busy && Block(i + Pow2(l), l) !in busy
    ensures BlockOk(s, i + Pow2(l), l)
    ensures forall m :: 0 <= m < |s.free| ==> i + Pow2(l) !in s.free[m]
    ensures Inv(Push(s, i + Pow2(l), l), busy, {Block(i, l)})
    ensures SamePages(s, busy + {Block(i, l), Block(i + Pow2(l), l)}, Push(s, i + Pow2(l), l), busy + {Block(i, l)})
  {
    var b, out := i + Pow2(l), busy + {Block(i, l), Block(i + Pow2(l), l)};
    UpperHalf(i, l);
    HandUnlisted(s, out, i, l);
    HandUnlisted(s, out, b, l);
    hide Inv, Geometry, SamePages;
    PushStep(s, busy, {Block(i, l), Block(b, l)}, b, l);
    assert {Block(i, l), Block(b, l)} - {Block(b, l)} == {Block(i, l)};
  }

  /** Splitting keeps the low part in the hand. */
  lemma {:induction false} SplitInv(s: State, busy: set<Block>, i: nat, from: nat, to: nat)
    requires Inv(s, busy, {Block(i, from)}) && Block(i, from) !in busy && to <= from && BlockOk(s, i, from)
    ensures Inv(Split(s, i, from, to), busy, {Block(i, to)}) && Block(i, to) !in busy
    ensures SamePages(s, busy + {Block(i, from)}, Split(s, i, from, to), busy + {Block(i, to)})
    decreases from
  {
    hide Inv, FlipBit;
    HandOk(s, busy, i, from);
    if from > to {
      SplitOnce(s, busy, i, from - 1);
      SplitInv(Push(s, FlipBit(i, from - 1), from - 1), busy, i, from - 1, to);
    }
  }

  lemma HeadsDiffer(s: State, out: set<Block>, i: nat, l: nat, j: nat, m: nat)
    requires Geometry(s, out) && Known(s, out, i, l) && Known(s, out, j, m) && !(j == i && m == l)
    ensures j != i
  {
    assert Apart(i, l, j, m);
  }

  lemma ClaimStep(s: State, busy: set<Block>, i: nat, l: nat)
    requires Inv(s, busy, {Block(i, l)}) && Block(i, l) !in busy && InZone(s, i)
    ensures Inv(Claim(s, i, l), busy + {Block(i, l)}, {})
    ensures SamePages(s, busy + {Block(i, l)}, Claim(s, i, l), busy + {Block(i, l)})
  {
    hide FlipBit, Pow2;
    var t, out := Claim(s, i, l), busy + {Block(i, l)};
    assert out + {} == out;
    assert Known(s, out, i, l);
    assert forall j: nat, m: nat :: IsFree(t, j, m) <==> IsFree(s, j, m);
    assert forall j: nat, m: nat :: Known(t, out, j, m) <==> Known(s, out, j, m);
    SameCovered(s, out, t, out);
    assert Geometry(t, out);
    forall j: nat, m: nat | IsFree(t, j, m)
      ensures InZone(t, j) && Flagged(t, j) && LevelOf(t, j) == m
    {
      assert Known(s, out, j, m);
      HeadsDiffer(s, out, i, l, j, m);
    }
    forall b | b in busy
      ensures InZone(t, b.head) && !Flagged(t, b.head) && LevelOf(t, b.head) == b.level
    {
      assert b == Block(b.head, b.level) && Known(s, out, b.head, b.level);
      HeadsDiffer(s, out, i, l, b.head, b.level);
    }
  }

  /** One round of the loop of `free_pages_at_level`. */
  lemma MergeOnce(s: State, busy: set<Block>, i: nat, l: nat)
    requires Inv(s, busy, {Block(i, l)}) && Block(i, l) !in busy && Merges(s, i, l)
    ensures IsFree(s, FlipBit(i, l), l)
    ensures var h := Min(i, FlipBit(i, l));
      && BlockOk(s, h, l + 1)
      && Inv(Remove(s, FlipBit(i, l), l), busy, {Block(h, l + 1)}) && Block(h, l + 1) !in busy
      && SamePages(s, busy + {Block(i, l)}, Remove(s, FlipBit(i, l), l), busy + {Block(h, l + 1)})
  {
    hide Tags;
    var b := FlipBit(i, l);
    assert Known(s, busy + {Block(i, l)}, i, l);
    MergeTest(s, busy, i, l);
    var t := Remove(s, b, l);
    RemoveFree(s, b, l);
    TakeStep(s, t, busy, {Block(i, l)}, b, l);
    BuddyFacts(i, l);
    var h := Min(i, b);
    assert {Block(i, l)} + {Block(b, l)} == {Block(h, l), Block(h + Pow2(l), l)};
    FuseStep(t, busy, h, l);
    assert Known(t, busy + {Block(h, l + 1)}, h, l + 1);
  }

  /** The last step: no free buddy, the block goes on its list. */
  lemma MergeEnd(s: State, busy: set<Block>, i: nat, l: nat)
    requires Inv(s, busy, {Block(i, l)}) && Block(i, l) !in busy && !Merges(s, i, l)
    ensures BlockOk(s, i, l) && Inv(Push(s, i, l), busy, {})
    ensures SamePages(s, busy + {Block(i, l)}, Push(s, i, l), busy)
    ensures forall m :: 0 <= m < |s.free| ==> i !in s.free[m]
  {
    HandUnlisted(s, busy + {Block(i, l)}, i, l);
    if l + 1 < |s.free| {
      MergeTest(s, busy, i, l);
    }
    PushStep(s, busy, {Block(i, l)}, i, l);
    assert {Block(i, l)} - {Block(i, l)} == {};
    assert busy + {} == busy;
  }

  /** Freeing a block in the hand. */
  lemma {:induction false} FreeAtInv(s: State, busy: set<Block>, i: nat, l: nat)
    requires Inv(s, busy, {Block(i, l)}) && Block(i, l) !in busy
    ensures Shape(s) && BlockOk(s, i, l)
    ensures Inv(FreeAt(s, i, l), busy, {})
    ensures SamePages(s, busy + {Block(i, l)}, FreeAt(s, i, l), busy)
    decreases |s.free| - l
  {
    hide Inv, FlipBit;
    HandOk(s, busy, i, l);
    if Merges(s, i, l) {
      MergeOnce(s, busy, i, l);
      FreeAtInv(Remove(s, FlipBit(i, l), l), busy, Min(i, FlipBit(i, l)), l + 1);
    } else {
      MergeEnd(s, busy, i, l);
    }
  }

  lemma ReleaseStep(s: State, busy: set<Block>, b: Block)
    requires Inv(s, busy, {}) && b in busy
    ensures Inv(s, busy - {b}, {b})
  {
    assert busy - {b} + {b} == busy == busy + {};
  }

  /** A block of pages that no block accounts for can be brought in. */
  lemma AdoptStep(s: State, busy: set<Block>, i: nat, l: nat)
    requires Inv(s, busy, {}) && BlockOk(s, i, l)
    requires forall p :: In(p, i, l) ==> !Covered(s, busy, p)
    ensures Inv(s, busy, {Block(i, l)}) && Block(i, l) !in busy
    ensures forall p :: Covered(s, busy + {Block(i, l)}, p) <==> Covered(s, busy, p) || In(p, i, l)
  {
    var out := busy + {Block(i, l)};
    assert busy + {} == busy;
    forall j: nat, m: nat | Known(s, busy, j, m)
      ensures Apart(i, l, j, m) && !(j == i && m == l)
    {
      assert In(j, j, m) && In(i, i, l);
      assert In(j, i, l) ==> Covered(s, busy, j);
      assert In(i, j, m) ==> Covered(s, busy, i);
    }
    assert Block(i, l) !in busy by {
      assert !Known(s, busy, i, l);
    }
    assert forall j: nat, m: nat :: Known(s, out, j, m) <==> Known(s, busy, j, m) || (j == i && m == l);
    KeepCovered(s, busy, s, out);
    assert Known(s, out, i, l);
    forall p | Covered(s, out, p) && !In(p, i, l)
      ensures Covered(s, busy, p)
    {
      var j: nat, m: nat :| Known(s, out, j, m) && In(p, j, m);
      assert Known(s, busy, j, m);
    }
  }

  // ----- allocating and freeing

  /** The invariant between operations. */
  ghost predicate Ready(s: State, busy: set<Block>) {
    Inv(s, busy, {})
  }

  ghost predicate FreePage(s: State, p: nat) {
    Covered(s, {}, p)
  }

  ghost predicate InBlocks(out: set<Block>, p: nat) {
    exists b :: b in out && In(p, b.head, b.level)
  }

  /** Every accounted page is free or in exactly one block that is out. */
  lemma FreeOrOut(s: State, out: set<Block>, p: nat)
    requires Geometry(s, out)
    ensures Covered(s, out, p) <==> FreePage(s, p) || InBlocks(out, p)
    ensures !(FreePage(s, p) && InBlocks(out, p))
  {
    if Covered(s, out, p) {
      var j: nat, m: nat :| Known(s, out, j, m) && In(p, j, m);
      assert IsFree(s, j, m) ==> Known(s, {}, j, m);
      assert Block(j, m) in out ==> InBlocks(out, p);
    }
    if FreePage(s, p) {
      var j: nat, m: nat :| Known(s, {}, j, m) && In(p, j, m);
      assert IsFree(s, j, m) && Known(s, out, j, m);
      forall b | b in out
        ensures !In(p, b.head, b.level)
      {
        assert b == Block(b.head, b.level) && Known(s, out, b.head, b.level);
        assert Apart(j, m, b.head, b.level);
      }
    }
    if InBlocks(out, p) {
      var b :| b in out && In(p, b.head, b.level);
      assert b == Block(b.head, b.level) && Known(s, out, b.head, b.level);
    }
  }

  /** What `allocate_pages` may pop is a well-placed block. */
  lemma ChosenOk(s: State, busy: set<Block>, order: nat)
    requires Ready(s, busy) && CanAllocate(s, order)
    ensures BlockOk(s, Chosen(s, order), FirstLevel(s, order))
    ensures IsFree(s, Chosen(s, order), FirstLevel(s, order)) && order <= FirstLevel(s, order)
  {
    assert Known(s, busy + {}, Chosen(s, order), FirstLevel(s, order));
  }

  lemma AllocateInv(s: State, busy: set<Block>, order: nat)
    requires Ready(s, busy) && CanAllocate(s, order)
    ensures BlockOk(s, Chosen(s, order), FirstLevel(s, order))
    ensures var i := Chosen(s, order);
      && Block(i, order) !in busy
      && BlockOk(s, i, order)
      && Ready(Allocate(s, order), busy + {Block(i, order)})
      && SameZone(s, Allocate(s, order))
      && SamePages(s, busy, Allocate(s, order), busy + {Block(i, order)})
  {
    var l, i := FirstLevel(s, order), Chosen(s, order);
    ChosenOk(s, busy, order);
    PopFree(s, l);
    TakeStep(s, Pop(s, l), busy, {}, i, l);
    assert {} + {Block(i, l)} == {Block(i, l)} && busy + {} == busy;
    SplitInv(Pop(s, l), busy, i, l, order);
    var t := Split(Pop(s, l), i, l, order);
    assert Known(t, busy + {Block(i, order)}, i, order);
    ClaimStep(t, busy, i, order);
  }

  /** What a caller may free: a block that is out, or pages never managed before. */
  ghost predicate MayFree(s: State, busy: set<Block>, i: nat, l: nat) {
    || Block(i, l) in busy
    || (BlockOk(s, i, l) && forall p :: In(p, i, l) ==> !Covered(s, busy, p))
  }

  /** Before a legal free the block is, or is taken, out of the busy blocks. */
  lemma FreeStart(s: State, busy: set<Block>, i: nat, l: nat)
    requires Ready(s, busy) && MayFree(s, busy, i, l)
    ensures Shape(s) && BlockOk(s, i, l) && Inv(s, busy - {Block(i, l)}, {Block(i, l)})
    ensures forall p :: Covered(s, busy - {Block(i, l)} + {Block(i, l)}, p) <==> Covered(s, busy, p) || In(p, i, l)
  {
    var b := Block(i, l);
    assert busy + {} == busy;
    if b in busy {
      ReleaseStep(s, busy, b);
      assert busy - {b} + {b} == busy;
      assert Known(s, busy, i, l);
    } else {
      AdoptStep(s, busy, i, l);
      assert busy - {b} == busy;
    }
  }

  lemma FreeInv(s: State, busy: set<Block>, i: nat, l: nat)
    requires Ready(s, busy) && MayFree(s, busy, i, l)
    ensures BlockOk(s, i, l)
    ensures Ready(FreeAt(s, i, l), busy - {Block(i, l)})
    ensures SameZone(s, FreeAt(s, i, l))
    ensures forall p :: Covered(FreeAt(s, i, l), busy - {Block(i, l)}, p) <==> Covered(s, busy, p) || In(p, i, l)
  {
    hide Inv;
    FreeStart(s, busy, i, l);
    FreeAtInv(s, busy - {Block(i, l)}, i, l);
    FreeAtSameZone(s, i, l);
  }

  lemma {:induction false} FreeAtSameZone(s: State, i: nat, l: nat)
    requires Shape(s) && InZone(s, i) && l < |s.free|
    ensures SameZone(s, FreeAt(s, i, l))
    decreases |s.free| - l
  {
    if Merges(s, i, l) {
      FreeAtSameZone(Remove(s, FlipBit(i, l), l), Min(i, FlipBit(i, l)), l + 1);
    }
  }

  /** The block popped from a list is in the hand. */
  lemma PopReady(s: State, busy: set<Block>, l: nat)
    requires Ready(s, busy) && l < |s.free| && s.free[l] != []
    ensures InZone(s, s.free[l][0]) && LevelOf(s, s.free[l][0]) == l
    ensures Block(s.free[l][0], l) !in busy && Inv(Pop(s, l), busy, {Block(s.free[l][0], l)})
  {
    PopFree(s, l);
    assert IsFree(s, s.free[l][0], l);
    TakeStep(s, Pop(s, l), busy, {}, s.free[l][0], l);
    assert {} + {Block(s.free[l][0], l)} == {Block(s.free[l][0], l)};
  }

  lemma EmptyReady(s: State)
    requires Shape(s)
    requires forall l :: 0 <= l < |s.free| ==> s.free[l] == []
    requires forall k :: 0 <= k < |s.flag| ==> !s.flag[k]
    ensures Ready(s, {}) && forall p :: !Covered(s, {}, p)
  {
    assert forall j: nat, m: nat :: !Known(s, {} + {}, j, m) && !Known(s, {}, j, m);
  }
}
