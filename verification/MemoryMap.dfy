/** The interval memory map of `kernel/memory/src/memory_map.rs`.
  *
  * A map is a sorted vector of typed ranges.  Its meaning is a function from addresses
  * to a type and a status, `At`; every operation on the vector is stated on it.
  */
module MemoryMap {
  import opened Numeric
  import opened Wrappers

  datatype MemoryType = Regular | NonRegular

  datatype MemoryStatus = Free | Reserved | Unknown

  datatype Attributes = Attributes(memtype: MemoryType, status: MemoryStatus)

  /** The addresses from `start` up to but not including `end`. */
  datatype MemoryRange = MemoryRange(start: nat, end: nat, attributes: Attributes) {
    predicate Contains(a: nat) {
      start <= a < end
    }

    predicate IsEmpty() {
      start >= end
    }
  }

  datatype Error = TypesDiffer | ReservedFreed

  datatype Ordering = Less | Equal | Greater

  // ----- the meaning of a vector of ranges

  function At(s: seq<MemoryRange>, a: nat): Option<Attributes> {
    if s == [] then None else if s[0].Contains(a) then Some(s[0].attributes) else At(s[1..], a)
  }

  /** Ranges in order, possibly empty ones among them. */
  ghost predicate Sorted(s: seq<MemoryRange>) {
    && (forall i :: 0 <= i < |s| ==> s[i].start <= s[i].end)
    && (forall i, j :: 0 <= i < j < |s| ==> s[i].end <= s[j].start)
  }

  predicate CanConcat(l: MemoryRange, r: MemoryRange) {
    l.end == r.start && l.attributes == r.attributes
  }

  /** No two neighbours could be one range. */
  ghost predicate Maximal(s: seq<MemoryRange>) {
    forall i, j :: 0 <= i && j == i + 1 && j < |s| ==> !CanConcat(s[i], s[j])
  }

  /** What every stored vector is: sorted, disjoint, free of empty ranges and maximal. */
  ghost predicate WellFormed(s: seq<MemoryRange>) {
    && Sorted(s) && Maximal(s)
    && forall i :: 0 <= i < |s| ==> !s[i].IsEmpty()
  }

  lemma {:induction false} AtConcat(s: seq<MemoryRange>, t: seq<MemoryRange>, a: nat)
    ensures At(s + t, a) == if At(s, a).Some? then At(s, a) else At(t, a)
  {
    if s == [] {
      assert s + t == t;
    } else {
      assert (s + t)[1..] == s[1..] + t;
      AtConcat(s[1..], t, a);
    }
  }

  lemma {:induction false} AtOutside(s: seq<MemoryRange>, a: nat)
    requires forall i :: 0 <= i < |s| ==> !s[i].Contains(a)
    ensures At(s, a) == None
  {
    if s != [] {
      AtOutside(s[1..], a);
    }
  }

  lemma {:induction false} AtInside(s: seq<MemoryRange>, i: nat, a: nat)
    requires Sorted(s) && i < |s| && s[i].Contains(a)
    ensures At(s, a) == Some(s[i].attributes)
  {
    if i > 0 {
      AtInside(s[1..], i - 1, a);
    }
  }

  /** The range that gives an address its attributes. */
  lemma {:induction false} AtWitness(s: seq<MemoryRange>, a: nat) returns (i: nat)
    requires At(s, a).Some?
    ensures i < |s| && s[i].Contains(a) && At(s, a) == Some(s[i].attributes)
  {
    if s[0].Contains(a) {
      i := 0;
    } else {
      i := AtWitness(s[1..], a);
      i := i + 1;
    }
  }

  lemma InOrder(s: seq<MemoryRange>, i: int, j: int)
    requires Sorted(s)
    ensures 0 <= i < j < |s| ==> s[i].start <= s[i].end <= s[j].start <= s[j].end
  {
  }

  lemma NotConcat(s: seq<MemoryRange>, i: int)
    requires Maximal(s)
    ensures 0 <= i && i + 1 < |s| ==> !CanConcat(s[i], s[i + 1])
  {
  }

  // ----- a vector is determined by its meaning

  /** The first range ends where it does because the attributes change there. */
  lemma FirstEnds(s: seq<MemoryRange>, t: seq<MemoryRange>)
    requires WellFormed(s) && WellFormed(t) && s != [] && t != []
    requires s[0].start == t[0].start && s[0].attributes == t[0].attributes
    requires forall a :: At(s, a) == At(t, a)
    ensures t[0].end <= s[0].end
  {
    var e := s[0].end;
    if e < t[0].end {
      AtInside(t, 0, e);
      var i := AtWitness(s, e);
      InOrder(s, 1, i);
      NotConcat(s, 0);
    }
  }

  lemma FirstStarts(s: seq<MemoryRange>, t: seq<MemoryRange>)
    requires WellFormed(s) && WellFormed(t) && s != []
    requires forall a :: At(s, a) == At(t, a)
    ensures t != [] && t[0].start <= s[0].start
  {
    AtInside(s, 0, s[0].start);
    var i := AtWitness(t, s[0].start);
    assert i > 0 ==> t[0].end <= t[i].start;
  }

  /** Two well-formed vectors with the same meaning are equal. */
  lemma {:induction false} MeaningDetermines(s: seq<MemoryRange>, t: seq<MemoryRange>)
    requires WellFormed(s) && WellFormed(t) && forall a :: At(s, a) == At(t, a)
    ensures s == t
    decreases |s|
  {
    if s == [] || t == [] {
      if s != [] {
        FirstStarts(s, t);
      }
      if t != [] {
        FirstStarts(t, s);
      }
    } else {
      FirstStarts(s, t);
      FirstStarts(t, s);
      AtInside(s, 0, s[0].start);
      AtInside(t, 0, s[0].start);
      FirstEnds(s, t);
      FirstEnds(t, s);
      forall a
        ensures At(s[1..], a) == At(t[1..], a)
      {
        if s[0].Contains(a) {
          AtOutside(s[1..], a);
          AtOutside(t[1..], a);
        } else {
          assert At(s, a) == At(s[1..], a) && At(t, a) == At(t[1..], a);
        }
      }
      WellFormedTail(s);
      WellFormedTail(t);
      MeaningDetermines(s[1..], t[1..]);
      assert s == [s[0]] + s[1..] && t == [t[0]] + t[1..];
    }
  }

  lemma WellFormedTail(s: seq<MemoryRange>)
    requires WellFormed(s) && s != []
    ensures WellFormed(s[1..])
  {
    assert forall i :: 0 <= i < |s[1..]| ==> s[1..][i] == s[i + 1];
  }

  // ----- compact

  /** Neighbours that can be one range glued together, from the left. */
  function Glue(s: seq<MemoryRange>): seq<MemoryRange>
    decreases |s|
  {
    if |s| <= 1 then s
    else if CanConcat(s[0], s[1]) then Glue([s[0].(end := s[1].end)] + s[2..])
    else [s[0]] + Glue(s[1..])
  }

  /** The ranges before `from` are glued in the first `to + 1` places. */
  ghost predicate Gluing(s: seq<MemoryRange>, r: seq<MemoryRange>, to: nat, from: nat) {
    && |r| == |s| && to < from <= |s| && r[from..] == s[from..]
    && r[..to] + Glue([r[to]] + s[from..]) == Glue(s)
  }

  lemma GluingStarts(s: seq<MemoryRange>)
    ensures s != [] ==> Gluing(s, s, 0, 1)
  {
    assert s != [] ==> [s[0]] + s[1..] == s;
  }

  lemma GluingGoesOn(s: seq<MemoryRange>, r: seq<MemoryRange>, to: nat, from: nat)
    requires Gluing(s, r, to, from) && from < |s|
    ensures
      if CanConcat(r[to], r[from]) then Gluing(s, r[to := r[to].(end := r[from].end)], to, from + 1)
      else Gluing(s, r[to + 1 := r[from]], to + 1, from + 1)
  {
    var rest := [r[to]] + s[from..];
    assert rest[1..] == s[from..] && s[from..] == [s[from]] + s[from + 1..];
    assert r[from] == s[from] && rest[2..] == s[from + 1..];
    if !CanConcat(r[to], r[from]) {
      var next := r[to + 1 := r[from]];
      assert next[..to + 1] == r[..to] + [r[to]];
    }
  }

  lemma GluingEnds(s: seq<MemoryRange>, r: seq<MemoryRange>, to: nat)
    requires Gluing(s, r, to, |s|)
    ensures r[..to + 1] == Glue(s)
  {
    assert [r[to]] + s[|s|..] == [r[to]];
    assert r[..to] + [r[to]] == r[..to + 1];
  }

  method Compact(s: seq<MemoryRange>) returns (r: seq<MemoryRange>)
    ensures r == Glue(s)
  {
    hide Gluing;
    r := s;
    var to, from := 0, 1;
    GluingStarts(s);
    while from < |r|
      invariant |r| == |s| && to < from
      invariant s != [] ==> from <= |s| && Gluing(s, r, to, from)
    {
      GluingGoesOn(s, r, to, from);
      if CanConcat(r[to], r[from]) {
        r := r[to := r[to].(end := r[from].end)];
      } else {
        to := to + 1;
        r := r[to := r[from]];
      }
      from := from + 1;
    }
    if s != [] {
      GluingEnds(s, r, to);
    }
    if to + 1 < |r| {
      r := r[..to + 1];
    }
  }

  lemma {:induction false} GlueMeaning(s: seq<MemoryRange>, a: nat)
    requires Sorted(s)
    ensures At(Glue(s), a) == At(s, a)
    decreases |s|
  {
    if |s| > 1 {
      assert s == [s[0], s[1]] + s[2..] && s[1..][1..] == s[2..];
      if CanConcat(s[0], s[1]) {
        GlueMeaning([s[0].(end := s[1].end)] + s[2..], a);
      } else {
        GlueMeaning(s[1..], a);
      }
    }
  }

  /** An empty range has a non-empty neighbour it can be glued to. */
  ghost predicate Solid(s: seq<MemoryRange>) {
    forall i :: 0 <= i < |s| && s[i].IsEmpty() ==> SolidAt(s, i)
  }

  ghost predicate SolidAt(s: seq<MemoryRange>, i: int)
    requires 0 <= i < |s|
  {
    || (i + 1 < |s| && CanConcat(s[i], s[i + 1]) && !s[i + 1].IsEmpty())
    || (i > 0 && CanConcat(s[i - 1], s[i]) && !s[i - 1].IsEmpty())
  }

  lemma EmptyIsSolid(s: seq<MemoryRange>, i: nat)
    requires Solid(s) && i < |s|
    ensures s[i].IsEmpty() ==> SolidAt(s, i)
  {
  }

  /** Gluing a sorted vector leaves no neighbours to glue, and starts where the vector starts. */
  lemma {:induction false} GlueWellFormed(s: seq<MemoryRange>)
    requires Sorted(s) && Solid(s)
    ensures WellFormed(Glue(s))
    ensures s != [] ==> Glue(s) != [] && Glue(s)[0].start == s[0].start && Glue(s)[0].attributes == s[0].attributes
    decreases |s|
  {
    if |s| == 1 {
      EmptyIsSolid(s, 0);
    } else if |s| > 1 {
      if CanConcat(s[0], s[1]) {
        var t := [s[0].(end := s[1].end)] + s[2..];
        GlueSolid(s);
        GlueWellFormed(t);
      } else {
        var t := s[1..];
        TailSolid(s);
        GlueWellFormed(t);
        GlueLimits(t, s[0].end);
        Cons(s[0], Glue(t));
      }
    }
  }

  lemma GlueSolid(s: seq<MemoryRange>)
    requires Sorted(s) && Solid(s) && |s| > 1 && CanConcat(s[0], s[1])
    ensures Sorted([s[0].(end := s[1].end)] + s[2..]) && Solid([s[0].(end := s[1].end)] + s[2..])
  {
    var t := [s[0].(end := s[1].end)] + s[2..];
    assert forall i :: 1 <= i < |t| ==> t[i] == s[i + 1];
    EmptyIsSolid(s, 0);
    forall i | 0 <= i < |t| && t[i].IsEmpty()
      ensures SolidAt(t, i)
    {
      assert i > 0 ==> SolidAt(s, i + 1);
    }
  }

  lemma TailSolid(s: seq<MemoryRange>)
    requires Sorted(s) && Solid(s) && |s| > 1 && !CanConcat(s[0], s[1])
    ensures Sorted(s[1..]) && Solid(s[1..]) && !s[0].IsEmpty()
  {
    var t := s[1..];
    EmptyIsSolid(s, 0);
    forall i | 0 <= i < |t| && t[i].IsEmpty()
      ensures SolidAt(t, i)
    {
      assert SolidAt(s, i + 1);
    }
  }

  /** Glued ranges start no earlier than the vector did. */
  lemma {:induction false} GlueLimits(s: seq<MemoryRange>, a: nat)
    requires Sorted(s) && forall i :: 0 <= i < |s| ==> a <= s[i].start
    ensures forall i :: 0 <= i < |Glue(s)| ==> a <= Glue(s)[i].start
    decreases |s|
  {
    if |s| > 1 {
      if CanConcat(s[0], s[1]) {
        GlueLimits([s[0].(end := s[1].end)] + s[2..], a);
      } else {
        GlueLimits(s[1..], a);
      }
    }
  }

  lemma Cons(r: MemoryRange, s: seq<MemoryRange>)
    requires WellFormed(s) && !r.IsEmpty()
    requires forall i :: 0 <= i < |s| ==> r.end <= s[i].start
    requires s != [] ==> !CanConcat(r, s[0])
    ensures WellFormed([r] + s)
  {
  }

  // ----- equal_range and replace

  method LowerBound<T>(s: seq<T>, cmp: T -> Ordering) returns (i: nat)
    ensures i <= |s| && (forall k :: 0 <= k < i ==> cmp(s[k]) == Less) && (i < |s| ==> cmp(s[i]) != Less)
  {
    for k := 0 to |s|
      invariant forall j :: 0 <= j < k ==> cmp(s[j]) == Less
    {
      if cmp(s[k]) != Less {
        return k;
      }
    }
    return |s|;
  }

  method UpperBound<T>(s: seq<T>, cmp: T -> Ordering) returns (i: nat)
    ensures i <= |s| && (forall k :: 0 <= k < i ==> cmp(s[k]) != Greater) && (i < |s| ==> cmp(s[i]) == Greater)
  {
    for k := 0 to |s|
      invariant forall j :: 0 <= j < k ==> cmp(s[j]) != Greater
    {
      if cmp(s[k]) == Greater {
        return k;
      }
    }
    return |s|;
  }

  /** In a sequence ordered by the comparison, exactly the positions that compare equal. */
  method EqualRange<T>(s: seq<T>, cmp: T -> Ordering) returns (lo: nat, hi: nat)
    requires forall i, j :: 0 <= i < j < |s| ==> (cmp(s[j]) == Less ==> cmp(s[i]) == Less)
    requires forall i, j :: 0 <= i < j < |s| ==> (cmp(s[i]) == Greater ==> cmp(s[j]) == Greater)
    ensures lo <= hi <= |s|
    ensures forall k :: 0 <= k < lo ==> cmp(s[k]) == Less
    ensures forall k :: lo <= k < hi ==> cmp(s[k]) == Equal
    ensures forall k :: hi <= k < |s| ==> cmp(s[k]) == Greater
  {
    lo := LowerBound(s, cmp);
    hi := UpperBound(s, cmp);
  }

  function RotateLeft<T>(s: seq<T>, k: nat): seq<T>
    requires k <= |s|
  {
    s[k..] + s[..k]
  }

  function Truncate<T>(s: seq<T>, n: nat): seq<T> {
    if n < |s| then s[..n] else s
  }

  /** Splices `items` in place of the positions from `lo` to `hi` by two rotations. */
  method Replace<T>(s: seq<T>, lo: nat, hi: nat, items: seq<T>) returns (r: seq<T>)
    requires lo <= hi <= |s|
    ensures r == s[..lo] + items + s[hi..]
  {
    var smaller := lo;
    var larger := |s| - hi;
    r := RotateLeft(s, hi);
    r := Truncate(r, smaller + larger);
    assert r == s[hi..] + s[..lo];
    for k := 0 to |items|
      invariant r == s[hi..] + s[..lo] + items[..k]
    {
      r := r + [items[k]];
    }
    assert items[..|items|] == items;
    r := RotateLeft(r, larger);
  }

  // ----- add_memory

  /** Whether a range may be overwritten by new memory, and why not. */
  function Clash(was: Attributes, now: Attributes): Option<Error> {
    if was.memtype != now.memtype then Some(TypesDiffer)
    else if was.status == Reserved && now.status == Free then Some(ReservedFreed)
    else None
  }

  predicate ClashesAt(s: seq<MemoryRange>, mem: MemoryRange, a: nat) {
    mem.Contains(a) && At(s, a).Some? && Clash(At(s, a).value, mem.attributes).Some?
  }

  /** Some address of `mem` may not be overwritten. */
  ghost predicate Clashes(s: seq<MemoryRange>, mem: MemoryRange) {
    exists a: nat :: ClashesAt(s, mem, a)
  }

  /** The meaning of a vector with the addresses of `mem` overwritten. */
  function Overwritten(s: seq<MemoryRange>, mem: MemoryRange, a: nat): Option<Attributes> {
    if mem.Contains(a) then Some(mem.attributes) else At(s, a)
  }

  function Position(mem: MemoryRange, l: MemoryRange): Ordering {
    if l.end <= mem.start then Less else if l.start >= mem.end then Greater else Equal
  }

  /** The positions from `lo` to `hi` are the ranges that overlap `mem`. */
  ghost predicate Slot(s: seq<MemoryRange>, mem: MemoryRange, lo: nat, hi: nat) {
    && lo <= hi <= |s|
    && (forall k :: 0 <= k < lo ==> s[k].end <= mem.start)
    && (forall k :: lo <= k < hi ==> s[k].end > mem.start && s[k].start < mem.end)
    && (forall k :: hi <= k < |s| ==> s[k].start >= mem.end)
  }

  /** What is left of the first overlapping range, or an empty range. */
  function BeforeOf(s: seq<MemoryRange>, mem: MemoryRange, lo: nat, i: nat): MemoryRange
    requires lo <= i <= |s|
  {
    if lo < i && s[lo].start < mem.start then MemoryRange(s[lo].start, mem.start, s[lo].attributes)
    else MemoryRange(mem.start, mem.start, mem.attributes)
  }

  /** What is left of the last overlapping range, or an empty range. */
  function AfterOf(s: seq<MemoryRange>, mem: MemoryRange, lo: nat, i: nat): MemoryRange
    requires lo <= i <= |s|
  {
    if lo < i && s[i - 1].end > mem.end then MemoryRange(mem.end, s[i - 1].end, s[i - 1].attributes)
    else MemoryRange(mem.end, mem.end, mem.attributes)
  }

  function Splice(s: seq<MemoryRange>, mem: MemoryRange, lo: nat, hi: nat): seq<MemoryRange>
    requires lo <= hi <= |s|
  {
    s[..lo] + [BeforeOf(s, mem, lo, hi), mem, AfterOf(s, mem, lo, hi)] + s[hi..]
  }

  lemma SortedConcat(s: seq<MemoryRange>, t: seq<MemoryRange>, a: nat)
    requires Sorted(s) && Sorted(t)
    requires forall i :: 0 <= i < |s| ==> s[i].end <= a
    requires forall i :: 0 <= i < |t| ==> a <= t[i].start
    ensures Sorted(s + t)
  {
  }

  lemma SpliceSorted(s: seq<MemoryRange>, mem: MemoryRange, lo: nat, hi: nat)
    requires WellFormed(s) && !mem.IsEmpty() && Slot(s, mem, lo, hi)
    ensures Sorted(Splice(s, mem, lo, hi))
  {
    var before, after := BeforeOf(s, mem, lo, hi), AfterOf(s, mem, lo, hi);
    assert lo < hi ==> s[lo].end <= s[hi - 1].end;
    assert forall i :: 0 <= i < lo && lo < hi ==> s[i].end <= s[lo].start;
    SortedConcat(s[..lo], [before, mem, after], before.start);
    assert forall i :: hi <= i < |s| && lo < hi ==> s[hi - 1].end <= s[i].start;
    SortedConcat(s[..lo] + [before, mem, after], s[hi..], after.end);
  }

  lemma SpliceSolid(s: seq<MemoryRange>, mem: MemoryRange, lo: nat, hi: nat)
    requires WellFormed(s) && !mem.IsEmpty() && Slot(s, mem, lo, hi)
    ensures Solid(Splice(s, mem, lo, hi))
  {
    var t := Splice(s, mem, lo, hi);
    assert t[lo] == BeforeOf(s, mem, lo, hi) && t[lo + 1] == mem && t[lo + 2] == AfterOf(s, mem, lo, hi);
    assert forall i :: 0 <= i < lo ==> t[i] == s[i];
    assert forall i :: lo + 3 <= i < |t| ==> t[i] == s[i - lo - 3 + hi];
    forall i | 0 <= i < |t| && t[i].IsEmpty()
      ensures SolidAt(t, i)
    {
    }
  }

  lemma SpliceMeaning(s: seq<MemoryRange>, mem: MemoryRange, lo: nat, hi: nat, a: nat)
    requires WellFormed(s) && !mem.IsEmpty() && Slot(s, mem, lo, hi)
    ensures At(Splice(s, mem, lo, hi), a) == Overwritten(s, mem, a)
  {
    var mid := [BeforeOf(s, mem, lo, hi), mem, AfterOf(s, mem, lo, hi)];
    assert s == s[..lo] + s[lo..hi] + s[hi..];
    AtConcat(s[..lo] + mid, s[hi..], a);
    AtConcat(s[..lo], mid, a);
    AtConcat(s[..lo] + s[lo..hi], s[hi..], a);
    AtConcat(s[..lo], s[lo..hi], a);
    MiddleMeaning(s, mem, lo, hi, a);
    if mem.Contains(a) {
      AtOutside(s[..lo], a);
    }
  }

  lemma AtThree(x: MemoryRange, y: MemoryRange, z: MemoryRange, a: nat)
    ensures At([x, y, z], a) ==
      if x.Contains(a) then Some(x.attributes)
      else if y.Contains(a) then Some(y.attributes)
      else if z.Contains(a) then Some(z.attributes) else None
  {
    assert [x, y, z][1..] == [y, z] && [y, z][1..] == [z];
    assert At([z], a) == if z.Contains(a) then Some(z.attributes) else None;
    assert At([y, z], a) == if y.Contains(a) then Some(y.attributes) else At([z], a);
  }

  /** The three new ranges mean what the replaced ones meant, except inside `mem`. */
  lemma MiddleMeaning(s: seq<MemoryRange>, mem: MemoryRange, lo: nat, hi: nat, a: nat)
    requires WellFormed(s) && !mem.IsEmpty() && Slot(s, mem, lo, hi)
    ensures At([BeforeOf(s, mem, lo, hi), mem, AfterOf(s, mem, lo, hi)], a) == Overwritten(s[lo..hi], mem, a)
  {
    var q := s[lo..hi];
    AtThree(BeforeOf(s, mem, lo, hi), mem, AfterOf(s, mem, lo, hi), a);
    assert forall k :: 0 <= k < |q| ==> q[k] == s[lo + k];
    assert Sorted(q);
    if a < mem.start {
      if q != [] && q[0].Contains(a) {
        AtInside(q, 0, a);
      } else {
        AtOutside(q, a);
      }
    } else if a >= mem.end {
      if q != [] && q[|q| - 1].Contains(a) {
        AtInside(q, |q| - 1, a);
      } else {
        AtOutside(q, a);
      }
    }
  }

  /** The first address of `mem` that may not be overwritten, and the reason. */
  ghost predicate FirstClash(s: seq<MemoryRange>, mem: MemoryRange, a: nat, error: Error) {
    && ClashesAt(s, mem, a) && Clash(At(s, a).value, mem.attributes) == Some(error)
    && forall b: nat :: b < a ==> !ClashesAt(s, mem, b)
  }

  /** Addresses of `mem` before the end of the ranges looked at do not clash. */
  lemma NoClashBefore(s: seq<MemoryRange>, mem: MemoryRange, lo: nat, hi: nat, i: nat, a: nat)
    requires WellFormed(s) && Slot(s, mem, lo, hi) && lo <= i <= hi
    requires forall k :: lo <= k < i ==> Clash(s[k].attributes, mem.attributes) == None
    requires i < hi ==> a < s[i].start
    ensures !ClashesAt(s, mem, a)
  {
    if At(s, a).Some? {
      var k := AtWitness(s, a);
      InOrder(s, i, k);
    }
  }

  lemma ClashAt(s: seq<MemoryRange>, mem: MemoryRange, lo: nat, hi: nat, i: nat, error: Error)
    requires WellFormed(s) && Slot(s, mem, lo, hi) && lo <= i < hi && !mem.IsEmpty()
    requires forall k :: lo <= k < i ==> Clash(s[k].attributes, mem.attributes) == None
    requires Clash(s[i].attributes, mem.attributes) == Some(error)
    ensures exists a :: FirstClash(s, mem, a, error)
  {
    var a := if s[i].start < mem.start then mem.start else s[i].start;
    AtInside(s, i, a);
    forall b: nat | b < a
      ensures !ClashesAt(s, mem, b)
    {
      if b < s[i].start {
        NoClashBefore(s, mem, lo, hi, i, b);
      }
    }
    assert FirstClash(s, mem, a, error);
  }

  /** `r` is what adding `mem` to `s` leaves. */
  ghost predicate Added(s: seq<MemoryRange>, mem: MemoryRange, r: seq<MemoryRange>) {
    WellFormed(r) && forall a: nat :: At(r, a) == Overwritten(s, mem, a)
  }

  /** What an addition leaves, accepted or not. */
  ghost predicate AddedOrKept(s: seq<MemoryRange>, mem: MemoryRange, r: seq<MemoryRange>) {
    if Clashes(s, mem) then r == s else Added(s, mem, r)
  }

  lemma SpliceAdds(s: seq<MemoryRange>, mem: MemoryRange, lo: nat, hi: nat)
    requires WellFormed(s) && !mem.IsEmpty() && Slot(s, mem, lo, hi)
    requires forall k :: lo <= k < hi ==> Clash(s[k].attributes, mem.attributes) == None
    ensures Added(s, mem, Glue(Splice(s, mem, lo, hi)))
    ensures forall a: nat :: !ClashesAt(s, mem, a)
  {
    var t := Splice(s, mem, lo, hi);
    SpliceSorted(s, mem, lo, hi);
    SpliceSolid(s, mem, lo, hi);
    GlueWellFormed(t);
    forall a: nat
      ensures !ClashesAt(s, mem, a) && At(Glue(t), a) == Overwritten(s, mem, a)
    {
      NoClashBefore(s, mem, lo, hi, hi, a);
      SpliceMeaning(s, mem, lo, hi, a);
      GlueMeaning(t, a);
    }
  }

  lemma EmptyAdds(s: seq<MemoryRange>, mem: MemoryRange)
    requires mem.IsEmpty()
    ensures forall a: nat :: At(s, a) == Overwritten(s, mem, a) && !ClashesAt(s, mem, a)
  {
  }

  lemma FirstClashes(s: seq<MemoryRange>, mem: MemoryRange, error: Error)
    requires exists a :: FirstClash(s, mem, a, error)
    ensures Clashes(s, mem)
  {
  }

  lemma PositionsOrdered(s: seq<MemoryRange>, mem: MemoryRange)
    requires WellFormed(s) && !mem.IsEmpty()
    ensures forall i, j :: 0 <= i < j < |s| ==> (Position(mem, s[j]) == Less ==> Position(mem, s[i]) == Less)
    ensures forall i, j :: 0 <= i < j < |s| ==> (Position(mem, s[i]) == Greater ==> Position(mem, s[j]) == Greater)
  {
  }

  lemma PositionsSlot(s: seq<MemoryRange>, mem: MemoryRange, lo: nat, hi: nat)
    requires lo <= hi <= |s| && !mem.IsEmpty() && WellFormed(s)
    requires forall k :: 0 <= k < lo ==> Position(mem, s[k]) == Less
    requires forall k :: lo <= k < hi ==> Position(mem, s[k]) == Equal
    requires forall k :: hi <= k < |s| ==> Position(mem, s[k]) == Greater
    ensures Slot(s, mem, lo, hi)
  {
  }

  lemma EndsBefore(s: seq<MemoryRange>, lo: nat, i: nat)
    requires WellFormed(s) && lo <= i < |s|
    ensures lo < i ==> s[lo].end <= s[i].start && s[i - 1].end <= s[i].start
  {
  }

  /** `add_memory` on a vector. */
  method AddTo(s: seq<MemoryRange>, mem: MemoryRange) returns (r: seq<MemoryRange>, outcome: Outcome<Error>)
    requires WellFormed(s)
    ensures WellFormed(r)
    ensures outcome.Pass? <==> forall a: nat :: !ClashesAt(s, mem, a)
    ensures outcome.Pass? ==> forall a: nat :: At(r, a) == Overwritten(s, mem, a)
    ensures outcome.Fail? ==> r == s && exists a :: FirstClash(s, mem, a, outcome.error)
  {
    hide At, ClashesAt, FirstClash, Glue, Overwritten, Position, Sorted, WellFormed;
    if mem.IsEmpty() {
      EmptyAdds(s, mem);
      return s, Pass;
    }
    var before := MemoryRange(mem.start, mem.start, mem.attributes);
    var after := MemoryRange(mem.end, mem.end, mem.attributes);
    PositionsOrdered(s, mem);
    var lo, hi := EqualRange(s, (l: MemoryRange) => Position(mem, l));
    PositionsSlot(s, mem, lo, hi);
    for i := lo to hi
      invariant forall k :: lo <= k < i ==> Clash(s[k].attributes, mem.attributes) == None
      invariant before == BeforeOf(s, mem, lo, i) && after == AfterOf(s, mem, lo, i)
    {
      if s[i].attributes.memtype != mem.attributes.memtype {
        ClashAt(s, mem, lo, hi, i, TypesDiffer);
        FirstClashes(s, mem, TypesDiffer);
        return s, Fail(TypesDiffer);
      }
      if s[i].attributes.status == Reserved && mem.attributes.status == Free {
        ClashAt(s, mem, lo, hi, i, ReservedFreed);
        FirstClashes(s, mem, ReservedFreed);
        return s, Fail(ReservedFreed);
      }
      EndsBefore(s, lo, i);
      if s[i].start < mem.start {
        before := MemoryRange(s[i].start, mem.start, s[i].attributes);
      }
      if s[i].end > mem.end {
        after := MemoryRange(mem.end, s[i].end, s[i].attributes);
      }
    }
    r := Replace(s, lo, hi, [before, mem, after]);
    assert r == Splice(s, mem, lo, hi);
    SpliceAdds(s, mem, lo, hi);
    r := Compact(r);
    outcome := Pass;
  }

  /** The vector left by an addition is unique. */
  lemma AddedUnique(s: seq<MemoryRange>, mem: MemoryRange, r: seq<MemoryRange>, r': seq<MemoryRange>)
    requires Added(s, mem, r) && Added(s, mem, r')
    ensures r == r'
  {
    MeaningDetermines(r, r');
  }

  /** Accepted additions commute on the stored vector exactly if they do not contradict each other. */
  lemma AdditionsCommute(s: seq<MemoryRange>, m: MemoryRange, n: MemoryRange,
                         sm: seq<MemoryRange>, sn: seq<MemoryRange>, smn: seq<MemoryRange>, snm: seq<MemoryRange>)
    requires Added(s, m, sm) && Added(sm, n, smn)
    requires Added(s, n, sn) && Added(sn, m, snm)
    ensures smn == snm <==> Compatible(m, n)
  {
    if Compatible(m, n) {
      forall a: nat
        ensures At(smn, a) == At(snm, a)
      {
        assert At(smn, a) == Overwritten(sm, n, a) && At(snm, a) == Overwritten(sn, m, a);
        assert At(sm, a) == Overwritten(s, m, a) && At(sn, a) == Overwritten(s, n, a);
      }
      MeaningDetermines(smn, snm);
    } else {
      var a: nat :| m.Contains(a) && n.Contains(a);
      assert At(smn, a) == Overwritten(sm, n, a) && At(snm, a) == Overwritten(sn, m, a);
    }
  }

  /** The attributes are equal, or no address is in both ranges. */
  ghost predicate Compatible(m: MemoryRange, n: MemoryRange) {
    m.attributes == n.attributes || forall a: nat :: !(m.Contains(a) && n.Contains(a))
  }

  /** An addition neither causes nor prevents the refusal of a compatible one. */
  lemma AcceptedAlike(s: seq<MemoryRange>, m: MemoryRange, n: MemoryRange, sn: seq<MemoryRange>)
    requires AddedOrKept(s, n, sn) && Compatible(m, n)
    ensures Clashes(sn, m) <==> Clashes(s, m)
  {
    if !Clashes(s, n) {
      forall a: nat
        ensures ClashesAt(sn, m, a) <==> ClashesAt(s, m, a)
      {
        assert At(sn, a) == Overwritten(s, n, a);
        assert !ClashesAt(s, n, a);
      }
    }
  }

  /** Compatible additions commute whether they are accepted or refused. */
  lemma OrderDoesNotMatter(s: seq<MemoryRange>, m: MemoryRange, n: MemoryRange,
                           sm: seq<MemoryRange>, sn: seq<MemoryRange>, smn: seq<MemoryRange>, snm: seq<MemoryRange>)
    requires AddedOrKept(s, m, sm) && AddedOrKept(sm, n, smn)
    requires AddedOrKept(s, n, sn) && AddedOrKept(sn, m, snm)
    requires Compatible(m, n)
    ensures (Clashes(s, m) <==> Clashes(sn, m)) && (Clashes(s, n) <==> Clashes(sm, n))
    ensures smn == snm
  {
    AcceptedAlike(s, m, n, sn);
    AcceptedAlike(s, n, m, sm);
    if !Clashes(s, m) && !Clashes(s, n) {
      AdditionsCommute(s, m, n, sm, sn, smn, snm);
    } else if !Clashes(s, m) {
      AddedUnique(s, m, smn, snm);
    } else if !Clashes(s, n) {
      AddedUnique(s, n, smn, snm);
    }
  }

  /** Adding the same memory again is accepted and changes nothing. */
  lemma AdditionIdempotent(s: seq<MemoryRange>, m: MemoryRange, r: seq<MemoryRange>, r': seq<MemoryRange>)
    requires Added(s, m, r) && Added(r, m, r')
    ensures r' == r && forall a: nat :: !ClashesAt(r, m, a)
  {
    forall a: nat
      ensures At(r, a) == At(r', a) && !ClashesAt(r, m, a)
    {
      assert At(r, a) == Overwritten(s, m, a) && At(r', a) == Overwritten(r, m, a);
    }
    MeaningDetermines(r, r');
  }

  // ----- finding free memory

  /** `overlap`: the part of a range inside the limit. */
  function Clip(r: MemoryRange, start: nat, end: nat): MemoryRange {
    r.(start := if r.start < start then start else r.start, end := if r.end < end then r.end else end)
  }

  predicate ClipYields(r: MemoryRange, start: nat, end: nat) {
    r.attributes.status == Free && !Clip(r, start, end).IsEmpty()
  }

  /** The iterator over the free parts of a map inside a limit. */
  class FreeMemoryIter {
    const inner: seq<MemoryRange>
    const start: nat
    const end: nat
    var next: nat

    constructor (inner: seq<MemoryRange>, start: nat, end: nat)
      ensures this.inner == inner && this.start == start && this.end == end && next == 0
    {
      this.inner := inner;
      this.start := start;
      this.end := end;
      next := 0;
    }

    /** Steps to the next range that yields something; everything before it yields nothing. */
    method Next() returns (r: Option<MemoryRange>)
      requires next <= |inner|
      modifies this
      ensures old(next) <= next <= |inner|
      ensures r == None ==> next == |inner| && forall k :: old(next) <= k < next ==> !ClipYields(inner[k], start, end)
      ensures r.Some? ==>
        && old(next) < next && ClipYields(inner[next - 1], start, end) && r.value == Clip(inner[next - 1], start, end)
        && forall k :: old(next) <= k < next - 1 ==> !ClipYields(inner[k], start, end)
    {
      while next < |inner|
        invariant old(next) <= next <= |inner|
        invariant forall k :: old(next) <= k < next ==> !ClipYields(inner[k], start, end)
      {
        var r := inner[next];
        next := next + 1;
        var range := Clip(r, start, end);
        if r.attributes.status != Free {
          continue;
        }
        if range.IsEmpty() {
          continue;
        }
        return Some(range);
      }
      return None;
    }
  }

  const LAST_ADDRESS: nat := 0xffff_ffff_ffff_ffff

  const FREE_MEMORY := Attributes(Regular, Free)

  /** An aligned place for `size` bytes inside the limit, all of them free regular memory.
    * A place for no bytes is one next to a free byte inside the limit. */
  ghost predicate Fits(s: seq<MemoryRange>, start: nat, end: nat, size: nat, align: nat, x: nat)
    requires align > 0
  {
    && x % align == 0 && start <= x && x + size <= end
    && (forall a: nat :: x <= a < x + size ==> At(s, a) == Some(FREE_MEMORY))
    && (size == 0 ==>
         || (x < end && At(s, x) == Some(FREE_MEMORY))
         || (start < x && At(s, x - 1) == Some(FREE_MEMORY)))
  }

  /** The least place. */
  ghost predicate FirstFit(s: seq<MemoryRange>, start: nat, end: nat, size: nat, align: nat, x: nat)
    requires align > 0
  {
    Fits(s, start, end, size, align, x) && forall y: nat :: Fits(s, start, end, size, align, y) ==> x <= y
  }

  ghost predicate NoFit(s: seq<MemoryRange>, start: nat, end: nat, size: nat, align: nat)
    requires align > 0
  {
    forall x: nat :: !Fits(s, start, end, size, align, x)
  }

  lemma NoFitAt(s: seq<MemoryRange>, start: nat, end: nat, size: nat, align: nat, x: nat)
    requires align > 0 && NoFit(s, start, end, size, align)
    ensures !Fits(s, start, end, size, align, x)
  {
  }

  /** The least place in the hint, or the least place anywhere if the hint has none. */
  ghost predicate HintedFit(s: seq<MemoryRange>, start: nat, end: nat, size: nat, align: nat, x: nat)
    requires align > 0
  {
    || FirstFit(s, start, end, size, align, x)
    || (NoFit(s, start, end, size, align) && FirstFit(s, 0, 0xffff_ffff_ffff_ffff, size, align, x))
  }

  /** Because the vector is maximal, addresses in a row with the same attributes are in one range. */
  lemma {:induction false} RunInOneRange(s: seq<MemoryRange>, x: nat, size: nat, attributes: Attributes)
    returns (i: nat)
    requires WellFormed(s) && size > 0
    requires forall a: nat :: x <= a < x + size ==> At(s, a) == Some(attributes)
    ensures i < |s| && s[i].start <= x && x + size <= s[i].end && s[i].attributes == attributes
    decreases size
  {
    if size == 1 {
      i := AtWitness(s, x);
    } else {
      i := RunInOneRange(s, x, size - 1, attributes);
      var j := AtWitness(s, x + size - 1);
      InOrder(s, j, i);
      InOrder(s, i, i + 1);
      InOrder(s, i + 1, j);
      NotConcat(s, i);
    }
  }

  function TypeAt(s: seq<MemoryRange>, a: nat): Option<MemoryType> {
    if At(s, a).Some? then Some(At(s, a).value.memtype) else None
  }

  ghost predicate SameTypes(s: seq<MemoryRange>, t: seq<MemoryRange>) {
    forall a: nat :: TypeAt(s, a) == TypeAt(t, a)
  }

  ghost predicate CoveredBy(s: seq<MemoryRange>, start: nat, end: nat) {
    forall a: nat :: start <= a < end ==> At(s, a).Some?
  }

  class MemoryMap {
    var memory: seq<MemoryRange>
    var zones: seq<MemoryRange>

    constructor ()
      ensures Valid() && Agree() && memory == [] && zones == []
    {
      memory := [];
      zones := [];
    }

    constructor Clone(other: MemoryMap)
      ensures memory == other.memory && zones == other.zones
    {
      memory := other.memory;
      zones := other.zones;
    }

    ghost predicate Valid()
      reads this
    {
      && WellFormed(memory) && WellFormed(zones)
      && forall i :: 0 <= i < |zones| ==> zones[i].attributes.status == Unknown
    }

    /** The zones cover exactly the addresses of the memory, with the same types. */
    ghost predicate Agree()
      reads this
    {
      SameTypes(zones, memory)
    }

    /** Addresses are words. */
    ghost predicate InWords()
      reads this
    {
      forall i :: 0 <= i < |memory| ==> memory[i].end < U64
    }

    /** `find_free_memory_in_range`: the first free regular range with room. Rounding up and adding
      * wrap around in the release build that the kernel is; the place returned is wrong exactly if
      * that makes a range without room pass the test before one with room is found. */
    method Find(start: nat, end: nat, size: nat, align: nat) returns (r: Option<MemoryRange>)
      requires Valid() && InWords() && IsPow2(align) && end < U64 && size < U64 && align < U64
      ensures !Misled(memory, start, end, size, align) ==>
        && (r == None <==> NoFit(memory, start, end, size, align))
        && (r.Some? ==>
             && r.value == MemoryRange(r.value.start, r.value.start + size, FREE_MEMORY)
             && FirstFit(memory, start, end, size, align, r.value.start))
      ensures Misled(memory, start, end, size, align) ==>
        r.Some? && !Fits(memory, start, end, size, align, r.value.start)
    {
      hide NoFit, FirstFit, Fits, Misled;
      var it := new FreeMemoryIter(memory, start, end);
      while true
        invariant it.inner == memory && it.start == start && it.end == end && it.next <= |memory|
        invariant unchanged(this)
        invariant forall k :: 0 <= k < it.next ==>
          !RoomIn(memory[k], start, end, size, align) && !Passes(memory[k], start, end, size, align)
        decreases |memory| - it.next
      {
        var mem := it.Next();
        if mem == None {
          NoRoom(memory, start, end, size, align);
          NeverMisled(memory, start, end, size, align);
          return None;
        }
        if mem.value.attributes.memtype != Regular {
          continue;
        }
        assert ClipYields(memory[it.next - 1], start, end) && memory[it.next - 1].attributes == FREE_MEMORY;
        var from := WrappingAlignUp(mem.value.start, align);
        var to := mem.value.end;
        RoomPasses(memory[it.next - 1], start, end, size, align);
        if WrappingAdd(from, size) > to {
          continue;
        }
        FirstPass(memory, start, end, size, align, it.next - 1);
        return Some(MemoryRange(from, WrappingAdd(from, size), mem.value.attributes));
      }
    }

    /** Both vectors get the range, each on its own: the second addition is performed even when
      * the first is refused, and the first is not undone when the second is refused. */
    method AddMemory(start: nat, end: nat, memtype: MemoryType) returns (outcome: Outcome<Error>)
      requires Valid()
      modifies this
      ensures Valid()
      ensures BothAdded(old(memory), old(zones), MemoryRange(start, end, Attributes(memtype, Free)),
                        memory, zones, outcome)
    {
      var range := MemoryRange(start, end, Attributes(memtype, Free));
      var zone := MemoryRange(start, end, Attributes(memtype, Unknown));
      ghost var was, zwas := memory, zones;
      var first, second;
      memory, first := AddTo(memory, range);
      zones, second := AddTo(zones, zone);
      outcome := if first.Pass? then second else first;
      ZonesUnknown(zwas, zone, zones);
    }

    /** The same with reserved memory. */
    method ReserveMemory(start: nat, end: nat, memtype: MemoryType) returns (outcome: Outcome<Error>)
      requires Valid()
      modifies this
      ensures Valid()
      ensures BothAdded(old(memory), old(zones), MemoryRange(start, end, Attributes(memtype, Reserved)),
                        memory, zones, outcome)
    {
      var range := MemoryRange(start, end, Attributes(memtype, Reserved));
      var zone := MemoryRange(start, end, Attributes(memtype, Unknown));
      ghost var was, zwas := memory, zones;
      var first, second;
      memory, first := AddTo(memory, range);
      zones, second := AddTo(zones, zone);
      outcome := if first.Pass? then second else first;
      ZonesUnknown(zwas, zone, zones);
    }

    /** `allocate_in_range`: reserves the least fitting place; the `unwrap` cannot fail. */
    method AllocateInRange(start: nat, end: nat, size: nat, align: nat) returns (r: Option<nat>)
      requires Valid() && InWords() && IsPow2(align) && end < U64 && size < U64 && align < U64
      requires !Misled(memory, start, end, size, align)
      modifies this
      ensures Valid() && zones == old(zones) && (Agree() <==> old(Agree()))
      ensures r == None <==> NoFit(old(memory), start, end, size, align)
      ensures r == None ==> memory == old(memory)
      ensures r.Some? ==>
        && FirstFit(old(memory), start, end, size, align, r.value)
        && Added(old(memory), MemoryRange(r.value, r.value + size, Attributes(Regular, Reserved)), memory)
    {
      var mem := Find(start, end, size, align);
      if mem == None {
        return None;
      }
      var range := MemoryRange(mem.value.start, mem.value.end, Attributes(mem.value.attributes.memtype, Reserved));
      ghost var was := memory;
      var outcome;
      memory, outcome := AddTo(memory, range);
      assert forall a: nat :: !ClashesAt(was, range, a);
      assert outcome.Pass?;
      assert forall a: nat :: TypeAt(memory, a) == TypeAt(was, a);
      return Some(mem.value.start);
    }

    method Allocate(size: nat, align: nat) returns (r: Option<nat>)
      requires Valid() && InWords() && IsPow2(align) && size < U64 && align < U64
      requires !Misled(memory, 0, 0xffff_ffff_ffff_ffff, size, align)
      modifies this
      ensures Valid() && zones == old(zones) && (Agree() <==> old(Agree()))
      ensures r == None <==> NoFit(old(memory), 0, 0xffff_ffff_ffff_ffff, size, align)
      ensures r == None ==> memory == old(memory)
      ensures r.Some? ==>
        && FirstFit(old(memory), 0, 0xffff_ffff_ffff_ffff, size, align, r.value)
        && Added(old(memory), MemoryRange(r.value, r.value + size, Attributes(Regular, Reserved)), memory)
    {
      r := AllocateInRange(0, LAST_ADDRESS, size, align);
    }

    /** Anywhere, when there is no room in the hint. */
    method AllocateWithHint(start: nat, end: nat, size: nat, align: nat) returns (r: Option<nat>)
      requires Valid() && InWords() && IsPow2(align) && end < U64 && size < U64 && align < U64
      requires !Misled(memory, start, end, size, align)
      requires NoFit(memory, start, end, size, align) ==> !Misled(memory, 0, 0xffff_ffff_ffff_ffff, size, align)
      modifies this
      ensures Valid() && zones == old(zones) && (Agree() <==> old(Agree()))
      ensures r == None <==>
        NoFit(old(memory), start, end, size, align) && NoFit(old(memory), 0, 0xffff_ffff_ffff_ffff, size, align)
      ensures r == None ==> memory == old(memory)
      ensures r.Some? ==>
        && HintedFit(old(memory), start, end, size, align, r.value)
        && Added(old(memory), MemoryRange(r.value, r.value + size, Attributes(Regular, Reserved)), memory)
    {
      r := AllocateInRange(start, end, size, align);
      if r == None {
        r := Allocate(size, align);
      }
    }
  }

  /** The zones keep the status Unknown. */
  lemma ZonesUnknown(s: seq<MemoryRange>, mem: MemoryRange, r: seq<MemoryRange>)
    requires WellFormed(s) && mem.attributes.status == Unknown
    requires forall i :: 0 <= i < |s| ==> s[i].attributes.status == Unknown
    requires r == s || Added(s, mem, r)
    ensures forall i :: 0 <= i < |r| ==> r[i].attributes.status == Unknown
  {
    if r != s {
      forall i | 0 <= i < |r|
        ensures r[i].attributes.status == Unknown
      {
        AtInside(r, i, r[i].start);
        assert At(r, r[i].start) == Overwritten(s, mem, r[i].start);
        if !mem.Contains(r[i].start) {
          var j := AtWitness(s, r[i].start);
        }
      }
    }
  }

  /** The same addresses and type with the status that zones have. */
  function ZoneOf(mem: MemoryRange): MemoryRange {
    mem.(attributes := Attributes(mem.attributes.memtype, Unknown))
  }

  /** What adding a range to the memory and to the zones leaves and returns. */
  ghost predicate BothAdded(s: seq<MemoryRange>, z: seq<MemoryRange>, mem: MemoryRange,
                            s': seq<MemoryRange>, z': seq<MemoryRange>, outcome: Outcome<Error>) {
    && AddedOrKept(s, mem, s') && AddedOrKept(z, ZoneOf(mem), z')
    && (outcome.Pass? <==> !Clashes(s, mem) && !Clashes(z, ZoneOf(mem)))
    && (outcome.Fail? ==>
         if Clashes(s, mem) then exists a :: FirstClash(s, mem, a, outcome.error)
         else exists a :: FirstClash(z, ZoneOf(mem), a, outcome.error))
  }

  /** Every address of the range has these attributes already. */
  ghost predicate Holds(s: seq<MemoryRange>, mem: MemoryRange) {
    forall a: nat :: mem.Contains(a) ==> At(s, a) == Some(mem.attributes)
  }

  /** The memory is left as it was exactly if it refuses the range or the range changes nothing. */
  lemma MemoryKept(s: seq<MemoryRange>, z: seq<MemoryRange>, mem: MemoryRange,
                   s': seq<MemoryRange>, z': seq<MemoryRange>, outcome: Outcome<Error>)
    requires WellFormed(s) && BothAdded(s, z, mem, s', z', outcome)
    ensures s' == s <==> Clashes(s, mem) || Holds(s, mem)
  {
    if !Clashes(s, mem) {
      assert forall a: nat :: At(s', a) == Overwritten(s, mem, a);
      if Holds(s, mem) {
        MeaningDetermines(s', s);
      }
    }
  }

  ghost predicate SameTypesOutside(s: seq<MemoryRange>, z: seq<MemoryRange>, mem: MemoryRange) {
    forall a: nat :: !mem.Contains(a) ==> TypeAt(z, a) == TypeAt(s, a)
  }

  ghost predicate SameTypesInside(s: seq<MemoryRange>, z: seq<MemoryRange>, mem: MemoryRange) {
    forall a: nat :: mem.Contains(a) ==> TypeAt(z, a) == TypeAt(s, a)
  }

  ghost predicate HasType(s: seq<MemoryRange>, mem: MemoryRange) {
    forall a: nat :: mem.Contains(a) ==> TypeAt(s, a) == Some(mem.attributes.memtype)
  }

  /** When memory and zones agree after a range was added: they agreed outside of it, and both
    * took it, or both refused it and agreed inside, or only the zones took it and the memory
    * had that type throughout. */
  ghost predicate WillAgree(s: seq<MemoryRange>, z: seq<MemoryRange>, mem: MemoryRange) {
    && SameTypesOutside(s, z, mem)
    && if !Clashes(s, mem) then !Clashes(z, ZoneOf(mem))
       else if Clashes(z, ZoneOf(mem)) then SameTypesInside(s, z, mem)
       else HasType(s, mem)
  }

  lemma AgreementAfter(s: seq<MemoryRange>, z: seq<MemoryRange>, mem: MemoryRange,
                       s': seq<MemoryRange>, z': seq<MemoryRange>, outcome: Outcome<Error>)
    requires BothAdded(s, z, mem, s', z', outcome)
    ensures SameTypes(z', s') <==> WillAgree(s, z, mem)
  {
    var zone := ZoneOf(mem);
    forall a: nat
      ensures TypeAt(s', a) ==
        if mem.Contains(a) && !Clashes(s, mem) then Some(mem.attributes.memtype) else TypeAt(s, a)
      ensures TypeAt(z', a) ==
        if mem.Contains(a) && !Clashes(z, zone) then Some(mem.attributes.memtype) else TypeAt(z, a)
    {
      assert !Clashes(s, mem) ==> At(s', a) == Overwritten(s, mem, a);
      assert !Clashes(z, zone) ==> At(z', a) == Overwritten(z, zone, a);
    }
    if SameTypes(z', s') {
      forall a: nat
        ensures !mem.Contains(a) ==> TypeAt(z, a) == TypeAt(s, a)
      {
        assert TypeAt(z', a) == TypeAt(s', a);
      }
      assert forall a: nat :: mem.Contains(a) ==> TypeAt(z', a) == TypeAt(s', a);
      if Clashes(z, zone) {
        var a: nat :| ClashesAt(z, zone, a);
        assert TypeAt(z', a) == TypeAt(s', a);
      }
    }
  }

  /** Some address of the range has another type. */
  ghost predicate TypeClash(s: seq<MemoryRange>, mem: MemoryRange) {
    exists a: nat :: mem.Contains(a) && TypeAt(s, a).Some? && TypeAt(s, a).value != mem.attributes.memtype
  }

  /** Where memory and zones agree, the zones refuse only for a type that differs, and then so
    * does the memory: a refused call leaves the memory alone.  The vectors still agree after
    * a refusal exactly if a type differed or all was covered before. */
  lemma AddedWhenAgreeing(s: seq<MemoryRange>, z: seq<MemoryRange>, mem: MemoryRange,
                          s': seq<MemoryRange>, z': seq<MemoryRange>, outcome: Outcome<Error>)
    requires WellFormed(s) && SameTypes(z, s) && BothAdded(s, z, mem, s', z', outcome)
    ensures outcome.Pass? <==> !Clashes(s, mem)
    ensures outcome.Pass? ==> SameTypes(z', s')
    ensures outcome.Fail? ==> s' == s && exists a :: FirstClash(s, mem, a, outcome.error)
    ensures outcome.Fail? ==> (SameTypes(z', s') <==> TypeClash(s, mem) || CoveredBy(s, mem.start, mem.end))
  {
    ZoneClashes(s, z, mem);
    AgreementAfter(s, z, mem, s', z', outcome);
    if Clashes(s, mem) && !Clashes(z, ZoneOf(mem)) {
      assert !TypeClash(s, mem);
      forall a: nat | mem.Contains(a)
        ensures TypeAt(s, a) == Some(mem.attributes.memtype) <==> At(s, a).Some?
      {
      }
    }
  }

  /** Where they agree, reserving is refused exactly if a type differs, and then changes nothing. */
  lemma ReservedWhenAgreeing(s: seq<MemoryRange>, z: seq<MemoryRange>, mem: MemoryRange,
                             s': seq<MemoryRange>, z': seq<MemoryRange>, outcome: Outcome<Error>)
    requires WellFormed(s) && SameTypes(z, s) && BothAdded(s, z, mem, s', z', outcome)
    requires mem.attributes.status == Reserved
    ensures outcome.Pass? <==> !TypeClash(s, mem)
    ensures outcome.Fail? ==> s' == s && z' == z && outcome.error == TypesDiffer
    ensures SameTypes(z', s')
  {
    ZoneClashes(s, z, mem);
    AddedWhenAgreeing(s, z, mem, s', z', outcome);
    if outcome.Fail? {
      var a :| FirstClash(s, mem, a, outcome.error);
      assert ClashesAt(s, mem, a) && TypeAt(s, a).Some?;
    }
    assert Clashes(s, mem) ==> TypeClash(s, mem) by {
      if Clashes(s, mem) {
        var a: nat :| ClashesAt(s, mem, a);
        assert TypeAt(s, a).Some? && TypeAt(s, a).value != mem.attributes.memtype;
      }
    }
  }

  /** For agreeing vectors the zones refuse a range exactly when its type differs somewhere. */
  lemma ZoneClashes(s: seq<MemoryRange>, z: seq<MemoryRange>, mem: MemoryRange)
    requires SameTypes(z, s)
    ensures Clashes(z, ZoneOf(mem)) <==> TypeClash(s, mem)
    ensures TypeClash(s, mem) ==> Clashes(s, mem)
  {
    forall a: nat
      ensures ClashesAt(z, ZoneOf(mem), a) <==>
        mem.Contains(a) && TypeAt(s, a).Some? && TypeAt(s, a).value != mem.attributes.memtype
    {
      assert TypeAt(z, a) == TypeAt(s, a);
    }
    if TypeClash(s, mem) {
      var a: nat :| mem.Contains(a) && TypeAt(s, a).Some? && TypeAt(s, a).value != mem.attributes.memtype;
      assert ClashesAt(s, mem, a) && ClashesAt(z, ZoneOf(mem), a);
    }
  }

  /** The aligned start of the part of a range inside the limit. */
  function RoomStart(r: MemoryRange, start: nat, align: nat): nat
    requires IsPow2(align)
  {
    AlignUp(if r.start < start then start else r.start, align)
  }

  /** The range is free and regular and its part inside the limit has room. */
  predicate RoomIn(r: MemoryRange, start: nat, end: nat, size: nat, align: nat)
    requires IsPow2(align)
  {
    && r.attributes == FREE_MEMORY
    && (if r.start < start then start else r.start) < (if r.end < end then r.end else end)
    && RoomStart(r, start, align) + size <= if r.end < end then r.end else end
  }

  /** Any fitting place is in a range with room, at or after the place tried there. */
  lemma FitHasRoom(s: seq<MemoryRange>, start: nat, end: nat, size: nat, align: nat, x: nat) returns (i: nat)
    requires WellFormed(s) && IsPow2(align) && Fits(s, start, end, size, align, x)
    ensures i < |s| && RoomIn(s[i], start, end, size, align) && RoomStart(s[i], start, align) <= x <= s[i].end
  {
    if size > 0 {
      i := RunInOneRange(s, x, size, FREE_MEMORY);
    } else {
      i := AtWitness(s, if x < end && At(s, x) == Some(FREE_MEMORY) then x else x - 1);
    }
    AlignUpLeast(if s[i].start < start then start else s[i].start, align, x);
  }

  lemma NoRoom(s: seq<MemoryRange>, start: nat, end: nat, size: nat, align: nat)
    requires WellFormed(s) && IsPow2(align)
    requires forall k :: 0 <= k < |s| ==> !RoomIn(s[k], start, end, size, align)
    ensures NoFit(s, start, end, size, align)
  {
    forall x: nat
      ensures !Fits(s, start, end, size, align, x)
    {
      if Fits(s, start, end, size, align, x) {
        var i := FitHasRoom(s, start, end, size, align, x);
      }
    }
  }

  // ----- arithmetic that wraps around

  function WrappingAdd(x: nat, y: nat): nat {
    (x + y) % U64
  }

  /** `align_up` on words. */
  function WrappingAlignUp(x: nat, align: nat): nat
    requires IsPow2(align)
  {
    AlignDown(WrappingAdd(x, align - 1), align)
  }

  /** The range is tried and passes the test of the source. */
  predicate Passes(r: MemoryRange, start: nat, end: nat, size: nat, align: nat)
    requires IsPow2(align)
  {
    && r.attributes == FREE_MEMORY && ClipYields(r, start, end)
    && WrappingAdd(WrappingAlignUp(Clip(r, start, end).start, align), size) <= Clip(r, start, end).end
  }

  /** A range without room passes, and none before it has room. */
  ghost predicate Misled(s: seq<MemoryRange>, start: nat, end: nat, size: nat, align: nat)
    requires IsPow2(align)
  {
    exists k :: 0 <= k < |s| && MisledAt(s, start, end, size, align, k)
  }

  ghost predicate MisledAt(s: seq<MemoryRange>, start: nat, end: nat, size: nat, align: nat, k: nat)
    requires IsPow2(align) && k < |s|
  {
    && Passes(s[k], start, end, size, align) && !RoomIn(s[k], start, end, size, align)
    && forall j :: 0 <= j < k ==> !RoomIn(s[j], start, end, size, align)
  }

  /** What the test does where nothing overflows, and where something does. */
  lemma RoomPasses(r: MemoryRange, start: nat, end: nat, size: nat, align: nat)
    requires IsPow2(align) && r.end < U64 && end < U64 && size < U64 && align < U64
    requires r.attributes == FREE_MEMORY && ClipYields(r, start, end)
    ensures RoomIn(r, start, end, size, align) ==>
      && Passes(r, start, end, size, align)
      && WrappingAlignUp(Clip(r, start, end).start, align) == RoomStart(r, start, align)
      && WrappingAdd(RoomStart(r, start, align), size) == RoomStart(r, start, align) + size
    ensures Passes(r, start, end, size, align) && !RoomIn(r, start, end, size, align) ==>
      var from := WrappingAlignUp(Clip(r, start, end).start, align);
      from + size >= U64 || (from == 0 && Clip(r, start, end).start > 0)
  {
    hide AlignUp, WrappingAlignUp, WrappingAdd, IsPow2;
    var x := Clip(r, start, end).start;
    WrappingStart(x, align);
    Wrapped(AlignUp(x, align), size);
    Wrapped(0, size);
  }

  lemma Wrapped(x: nat, y: nat)
    ensures x + y < U64 ==> WrappingAdd(x, y) == x + y
  {
    if x + y < U64 {
      Unwrapped(x + y);
    }
  }

  /** Rounding up wraps around to 0. */
  lemma WrappingStart(x: nat, align: nat)
    requires IsPow2(align) && x < U64 && align < U64
    ensures WrappingAlignUp(x, align) == if AlignUp(x, align) < U64 then AlignUp(x, align) else 0
    ensures AlignUp(x, align) >= U64 ==> x > 0
  {
    hide IsPow2, AlignDown;
    assert AlignUp(x, align) < x + align;
    if x + align - 1 < U64 {
      Unwrapped(x + align - 1);
    } else {
      var small := x + align - 1 - U64;
      DivisionUnique(x + align - 1, U64, 1, small);
      MultipleOf(0, align);
      AlignDownFindsBlock(small, align, 0);
      WordsAreMultiples(align);
      if AlignUp(x, align) < U64 {
        MultiplesApart(U64 - align, AlignUp(x, align), align);
      }
    }
  }

  lemma Unwrapped(x: nat)
    requires x < U64
    ensures x % U64 == x
  {
  }

  lemma WordsAreMultiples(align: nat)
    requires IsPow2(align) && align < U64
    ensures (U64 - align) % align == 0
  {
    hide Pow2;
    var k: nat :| align == Pow2(k);
    Pow2Words();
    if k >= 64 {
      Pow2Monotone(64, k);
    }
    Pow2Sum(64 - k, k);
    var q := Pow2(64 - k);
    assert U64 - align == (q - 1) * align;
    MultipleOf(q - 1, align);
  }

  lemma NeverMisled(s: seq<MemoryRange>, start: nat, end: nat, size: nat, align: nat)
    requires IsPow2(align)
    requires forall k :: 0 <= k < |s| ==> !Passes(s[k], start, end, size, align)
    ensures !Misled(s, start, end, size, align)
  {
  }

  /** The first range that passes gives the least place if it has room, and no place if not. */
  lemma FirstPass(s: seq<MemoryRange>, start: nat, end: nat, size: nat, align: nat, i: nat)
    requires WellFormed(s) && IsPow2(align) && i < |s| && end < U64 && size < U64 && align < U64
    requires forall k :: 0 <= k < |s| ==> s[k].end < U64
    requires Passes(s[i], start, end, size, align)
    requires forall k :: 0 <= k < i ==>
      !RoomIn(s[k], start, end, size, align) && !Passes(s[k], start, end, size, align)
    ensures var from := WrappingAlignUp(Clip(s[i], start, end).start, align);
      if Misled(s, start, end, size, align) then !Fits(s, start, end, size, align, from)
      else FirstFit(s, start, end, size, align, from) && WrappingAdd(from, size) == from + size
    ensures !Misled(s, start, end, size, align) ==> !NoFit(s, start, end, size, align)
  {
    RoomPasses(s[i], start, end, size, align);
    var from := WrappingAlignUp(Clip(s[i], start, end).start, align);
    if RoomIn(s[i], start, end, size, align) {
      FirstRoom(s, start, end, size, align, i);
      NotMisledAfter(s, start, end, size, align, i);
    } else {
      assert MisledAt(s, start, end, size, align, i);
      if Fits(s, start, end, size, align, from) {
        var j := FitHasRoom(s, start, end, size, align, from);
        InOrder(s, i, j);
      }
    }
  }

  lemma NotMisledAfter(s: seq<MemoryRange>, start: nat, end: nat, size: nat, align: nat, i: nat)
    requires IsPow2(align) && i < |s| && RoomIn(s[i], start, end, size, align)
    requires forall k :: 0 <= k < i ==> !Passes(s[k], start, end, size, align)
    ensures !Misled(s, start, end, size, align)
  {
  }

  /** Far from the end of the address space nothing overflows. */
  lemma NotMisled(s: seq<MemoryRange>, start: nat, end: nat, size: nat, align: nat, bound: nat)
    requires IsPow2(align) && end < U64 && bound + align + size <= U64
    requires forall k :: 0 <= k < |s| ==> s[k].end <= bound
    ensures !Misled(s, start, end, size, align)
  {
    forall k | 0 <= k < |s| && Passes(s[k], start, end, size, align)
      ensures RoomIn(s[k], start, end, size, align)
    {
      RoomPasses(s[k], start, end, size, align);
      var x := Clip(s[k], start, end).start;
      Unwrapped(x + align - 1);
    }
  }

  /** One free range and a size close to the end of the address space: the first address of the
    * range passes as a place for far more bytes than there are. */
  lemma MisledByOverflow()
    ensures IsPow2(4096)
    ensures Misled([MemoryRange(4096, 8192, FREE_MEMORY)], 0, 0xffff_ffff_ffff_ffff, U64 - 4096, 4096)
  {
    PageSizePow2();
    var s := [MemoryRange(4096, 8192, FREE_MEMORY)];
    AlignDownFindsBlock(8191, 4096, 4096);
    assert WrappingAlignUp(4096, 4096) == 4096;
    assert MisledAt(s, 0, 0xffff_ffff_ffff_ffff, U64 - 4096, 4096, 0);
  }

  /** The place tried in the first range with room is the least fitting place. */
  lemma FirstRoom(s: seq<MemoryRange>, start: nat, end: nat, size: nat, align: nat, i: nat)
    requires WellFormed(s) && IsPow2(align) && i < |s| && RoomIn(s[i], start, end, size, align)
    requires forall k :: 0 <= k < i ==> !RoomIn(s[k], start, end, size, align)
    ensures FirstFit(s, start, end, size, align, RoomStart(s[i], start, align))
  {
    var y := RoomStart(s[i], start, align);
    var from := if s[i].start < start then start else s[i].start;
    AlignUpLeast(from, align, y);
    forall a: nat | from <= a < s[i].end
      ensures At(s, a) == Some(FREE_MEMORY)
    {
      AtInside(s, i, a);
    }
    forall x: nat | Fits(s, start, end, size, align, x)
      ensures y <= x
    {
      var j := FitHasRoom(s, start, end, size, align, x);
      if i < j {
        assert s[i].end <= s[j].start;
      }
    }
  }

  lemma AtOne(r: MemoryRange, a: nat)
    ensures At([r], a) == if r.Contains(a) then Some(r.attributes) else None
  {
    assert [r][1..] == [];
  }

  lemma AtTwo(q: MemoryRange, r: MemoryRange, a: nat)
    ensures At([q, r], a) ==
      if q.Contains(a) then Some(q.attributes) else if r.Contains(a) then Some(r.attributes) else None
  {
    assert [q, r][1..] == [r];
    AtOne(r, a);
  }

  /** Adding two ranges that follow each other and differ to an empty vector. */
  lemma TwoAdditions(q: MemoryRange, r: MemoryRange, s: seq<MemoryRange>, t: seq<MemoryRange>)
    requires AddedOrKept([], q, s) && AddedOrKept(s, r, t)
    requires !q.IsEmpty() && !r.IsEmpty() && q.end == r.start && q.attributes != r.attributes
    ensures !Clashes([], q) && !Clashes(s, r) && t == [q, r]
  {
    forall a: nat
      ensures !ClashesAt([], q, a) && !ClashesAt(s, r, a) && At(t, a) == At([q, r], a)
    {
      assert At(s, a) == Overwritten([], q, a);
      assert !Clashes(s, r) ==> At(t, a) == Overwritten(s, r, a);
      AtTwo(q, r, a);
    }
    MeaningDetermines(t, [q, r]);
  }

  /** The zones can stop agreeing with the memory: address 0 is reserved, and freeing the
    * addresses 0 and 1 is refused, but the zones take the range all the same.  After that, a
    * range of the other type at address 1 is refused by the zones although the memory took it,
    * so that a call that returns an error has changed the memory. */
  lemma ZonesCanDisagree(status: MemoryStatus)
    ensures var reserved := MemoryRange(0, 1, Attributes(Regular, Reserved));
      var both := MemoryRange(0, 2, FREE_MEMORY);
      var other := MemoryRange(1, 2, Attributes(NonRegular, status));
      && BothAdded([], [], reserved, [reserved], [ZoneOf(reserved)], Pass)
      && BothAdded([reserved], [ZoneOf(reserved)], both, [reserved], [ZoneOf(both)], Fail(ReservedFreed))
      && BothAdded([reserved], [ZoneOf(both)], other, [reserved, other], [ZoneOf(both)], Fail(TypesDiffer))
      && TypeAt([ZoneOf(both)], 1) != TypeAt([reserved], 1)
  {
    var reserved := MemoryRange(0, 1, Attributes(Regular, Reserved));
    var both := MemoryRange(0, 2, FREE_MEMORY);
    var other := MemoryRange(1, 2, Attributes(NonRegular, status));
    forall a: nat
      ensures At([reserved], a) == if a == 0 then Some(reserved.attributes) else None
      ensures At([ZoneOf(reserved)], a) == if a == 0 then Some(Attributes(Regular, Unknown)) else None
      ensures At([ZoneOf(both)], a) == if a < 2 then Some(Attributes(Regular, Unknown)) else None
      ensures At([reserved, other], a) ==
        if a == 0 then Some(reserved.attributes) else if a == 1 then Some(other.attributes) else None
    {
      AtOne(reserved, a);
      AtOne(ZoneOf(reserved), a);
      AtOne(ZoneOf(both), a);
      AtTwo(reserved, other, a);
    }
    assert FirstClash([reserved], both, 0, ReservedFreed);
    assert FirstClash([ZoneOf(both)], ZoneOf(other), 1, TypesDiffer);
    assert ClashesAt([reserved], both, 0) && ClashesAt([ZoneOf(both)], ZoneOf(other), 1);
  }
}
