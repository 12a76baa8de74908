/** The number of free pages, which the counter of the C++ zones keeps. */
module BuddyCount {
  import opened BuddySpec
  import opened Sequences
  import opened Numeric

  /** Sum of the sizes of the blocks on the lists below level `l`. */
  function Total(free: seq<seq<nat>>, l: nat): nat
    requires l <= |free|
  {
    if l == 0 then 0 else Total(free, l - 1) + |free[l - 1]| * Pow2(l - 1)
  }

  lemma {:induction false} TotalUpdate(free: seq<seq<nat>>, l: nat, q: seq<nat>, k: nat)
    requires l < |free| && k <= |free|
    ensures Total(free[l := q], k) == Total(free, k) + if l < k then |q| * Pow2(l) - |free[l]| * Pow2(l) else 0
  {
    if k > 0 {
      TotalUpdate(free, l, q, k - 1);
    }
  }

  function FreeTotal(s: State): nat {
    Total(s.free, |s.free|)
  }

  lemma TotalPush(s: State, p: nat, l: nat)
    requires Shape(s) && InZone(s, p) && l < |s.free|
    ensures FreeTotal(Push(s, p, l)) == FreeTotal(s) + Pow2(l)
  {
    TotalUpdate(s.free, l, [p] + s.free[l], |s.free|);
    assert (|s.free[l]| + 1) * Pow2(l) == |s.free[l]| * Pow2(l) + Pow2(l);
  }

  lemma TotalShorter(s: State, l: nat, q: seq<nat>)
    requires l < |s.free| && |q| + 1 == |s.free[l]|
    ensures FreeTotal(s.(free := s.free[l := q])) == FreeTotal(s) - Pow2(l)
  {
    TotalUpdate(s.free, l, q, |s.free|);
    assert |s.free[l]| * Pow2(l) == |q| * Pow2(l) + Pow2(l);
  }

  lemma {:induction false} TotalSplit(s: State, i: nat, from: nat, to: nat)
    requires Shape(s) && BlockOk(s, i, from) && to <= from
    ensures FreeTotal(Split(s, i, from, to)) + Pow2(to) == FreeTotal(s) + Pow2(from)
    decreases from
  {
    if from > to {
      UpperHalf(i, from - 1);
      TotalPush(s, FlipBit(i, from - 1), from - 1);
      TotalSplit(Push(s, FlipBit(i, from - 1), from - 1), i, from - 1, to);
    }
  }

  /** Allocation lowers the sum by exactly the size of the block handed out. */
  lemma TotalAllocate(s: State, busy: set<Block>, order: nat)
    requires Ready(s, busy) && CanAllocate(s, order)
    ensures BlockOk(s, Chosen(s, order), FirstLevel(s, order))
    ensures FreeTotal(Allocate(s, order)) == FreeTotal(s) - Pow2(order)
  {
    var l := FirstLevel(s, order);
    ChosenOk(s, busy, order);
    TotalShorter(s, l, s.free[l][1..]);
    TotalSplit(Pop(s, l), Chosen(s, order), l, order);
  }

  lemma TotalMerge(s: State, busy: set<Block>, i: nat, l: nat)
    requires Inv(s, busy, {Block(i, l)}) && Block(i, l) !in busy && Merges(s, i, l)
    ensures FreeTotal(Remove(s, FlipBit(i, l), l)) == FreeTotal(s) - Pow2(l)
  {
    var b := FlipBit(i, l);
    MergeTest(s, busy, i, l);
    WithoutLength<nat>(s.free[l], b);
    TotalShorter(s, l, Without<nat>(s.free[l], b));
  }

  /** Freeing raises the sum by the size of the block, however far it merges. */
  lemma {:induction false} TotalFreeAt(s: State, busy: set<Block>, i: nat, l: nat)
    requires Inv(s, busy, {Block(i, l)}) && Block(i, l) !in busy && BlockOk(s, i, l)
    ensures FreeTotal(FreeAt(s, i, l)) == FreeTotal(s) + Pow2(l)
    decreases |s.free| - l
  {
    hide Inv, FlipBit;
    HandOk(s, busy, i, l);
    if Merges(s, i, l) {
      var t, h := Remove(s, FlipBit(i, l), l), Min(i, FlipBit(i, l));
      assert FreeTotal(t) == FreeTotal(s) - Pow2(l) by {
        TotalMerge(s, busy, i, l);
      }
      assert FreeTotal(FreeAt(t, h, l + 1)) == FreeTotal(t) + Pow2(l + 1) by {
        MergeOnce(s, busy, i, l);
        TotalFreeAt(t, busy, h, l + 1);
      }
    } else {
      TotalPush(s, i, l);
    }
  }

  lemma TotalFree(s: State, busy: set<Block>, i: nat, l: nat)
    requires Ready(s, busy) && MayFree(s, busy, i, l)
    ensures BlockOk(s, i, l)
    ensures FreeTotal(FreeAt(s, i, l)) == FreeTotal(s) + Pow2(l)
  {
    FreeStart(s, busy, i, l);
    TotalFreeAt(s, busy - {Block(i, l)}, i, l);
  }

  predicate InRange(p: nat, i: nat, n: nat) {
    i <= p < i + n
  }

  function Range(i: nat, n: nat): set<nat> {
    set p: nat | i <= p < i + n && InRange(p, i, n)
  }

  lemma {:induction false} RangeSize(i: nat, n: nat)
    ensures |Range(i, n)| == n
  {
    if n > 0 {
      RangeSize(i, n - 1);
      assert Range(i, n) == Range(i, n - 1) + {i + n - 1};
    }
  }

  /** The pages of the blocks of level `l` with the given heads. */
  ghost function HeadPages(q: seq<nat>, l: nat): set<nat> {
    if q == [] then {} else Range(q[0], Pow2(l)) + HeadPages(q[1..], l)
  }

  lemma {:induction false} InHeadPages(q: seq<nat>, l: nat, p: nat)
    ensures p in HeadPages(q, l) <==> exists x :: 0 <= x < |q| && In(p, q[x], l)
  {
    if q != [] {
      InHeadPages(q[1..], l, p);
      assert forall x :: 0 < x < |q| ==> q[1..][x - 1] == q[x];
    }
  }

  lemma {:induction false} HeadPagesSize(q: seq<nat>, l: nat)
    requires forall x, y :: 0 <= x < y < |q| ==> Apart(q[x], l, q[y], l)
    ensures |HeadPages(q, l)| == |q| * Pow2(l)
  {
    if q != [] {
      var first, rest := Range(q[0], Pow2(l)), HeadPages(q[1..], l);
      HeadPagesSize(q[1..], l);
      RangeSize(q[0], Pow2(l));
      forall p: nat | p in rest
        ensures p !in first
      {
        InHeadPages(q[1..], l, p);
        var x :| 0 <= x < |q[1..]| && In(p, q[1..][x], l);
        assert Apart(q[0], l, q[x + 1], l);
      }
      assert first !! rest;
      assert (1 + |q[1..]|) * Pow2(l) == Pow2(l) + |q[1..]| * Pow2(l);
    }
  }

  /** The pages of the free blocks below level `l`. */
  ghost function LevelPages(s: State, l: nat): set<nat>
    requires l <= |s.free|
  {
    if l == 0 then {} else LevelPages(s, l - 1) + HeadPages(s.free[l - 1], l - 1)
  }

  ghost predicate FreeBelow(s: State, l: nat, p: nat) {
    exists j: nat, m: nat :: m < l && IsFree(s, j, m) && In(p, j, m)
  }

  lemma {:induction false} InLevelPages(s: State, l: nat, p: nat)
    requires l <= |s.free|
    ensures p in LevelPages(s, l) <==> FreeBelow(s, l, p)
  {
    if l > 0 {
      InLevelPages(s, l - 1, p);
      InHeadPages(s.free[l - 1], l - 1, p);
      if p in HeadPages(s.free[l - 1], l - 1) {
        var x :| 0 <= x < |s.free[l - 1]| && In(p, s.free[l - 1][x], l - 1);
        assert IsFree(s, s.free[l - 1][x], l - 1);
      }
      if FreeBelow(s, l, p) {
        var j: nat, m: nat :| m < l && IsFree(s, j, m) && In(p, j, m);
        assert m < l - 1 || exists x :: 0 <= x < |s.free[m]| && s.free[m][x] == j;
      }
    }
  }

  lemma LevelsDisjoint(s: State, busy: set<Block>, l: nat)
    requires Ready(s, busy) && l < |s.free|
    ensures LevelPages(s, l) !! HeadPages(s.free[l], l)
  {
    forall p: nat | p in LevelPages(s, l)
      ensures p !in HeadPages(s.free[l], l)
    {
      InLevelPages(s, l, p);
      InHeadPages(s.free[l], l, p);
      var j: nat, m: nat :| m < l && IsFree(s, j, m) && In(p, j, m);
      forall x | 0 <= x < |s.free[l]|
        ensures !In(p, s.free[l][x], l)
      {
        FreeApart(s, busy, j, m, s.free[l][x], l);
      }
    }
  }

  lemma FreeApart(s: State, busy: set<Block>, i: nat, l: nat, j: nat, m: nat)
    requires Ready(s, busy) && IsFree(s, i, l) && IsFree(s, j, m) && (i != j || l != m)
    ensures Apart(i, l, j, m)
  {
    assert Known(s, busy + {}, i, l) && Known(s, busy + {}, j, m);
  }

  lemma LevelSize(s: State, busy: set<Block>, l: nat)
    requires Ready(s, busy) && l < |s.free|
    ensures |HeadPages(s.free[l], l)| == |s.free[l]| * Pow2(l)
  {
    var q := s.free[l];
    forall x, y | 0 <= x < y < |q|
      ensures Apart(q[x], l, q[y], l)
    {
      FreeApart(s, busy, q[x], l, q[y], l);
    }
    HeadPagesSize(q, l);
  }

  lemma {:induction false} LevelPagesSize(s: State, busy: set<Block>, l: nat)
    requires Ready(s, busy) && l <= |s.free|
    ensures |LevelPages(s, l)| == Total(s.free, l)
  {
    hide HeadPages, Pow2, Ready;
    if l > 0 {
      LevelPagesSize(s, busy, l - 1);
      LevelSize(s, busy, l - 1);
      LevelsDisjoint(s, busy, l - 1);
    }
  }

  /** The pages that are free. */
  lemma FreePages(s: State, busy: set<Block>) returns (pages: set<nat>)
    requires Ready(s, busy)
    ensures |pages| == FreeTotal(s) && forall p: nat :: p in pages <==> FreePage(s, p)
  {
    LevelPagesSize(s, busy, |s.free|);
    pages := LevelPages(s, |s.free|);
    forall p: nat
      ensures p in pages <==> FreePage(s, p)
    {
      InLevelPages(s, |s.free|, p);
      assert forall j: nat, m: nat :: IsFree(s, j, m) <==> Known(s, {}, j, m);
    }
  }

  /** The sum of the block sizes is the number of free pages. */
  lemma TotalCountsFreePages(s: State, busy: set<Block>)
    requires Ready(s, busy)
    ensures exists pages: set<nat> :: |pages| == FreeTotal(s) && forall p: nat :: p in pages <==> FreePage(s, p)
  {
    var pages := FreePages(s, busy);
  }
}
