/** Safety of the buddy allocator over all runs. */
module BuddyRuns {
  import opened BuddySpec

  datatype Op = Allocation(order: nat) | Release(index: nat) | ReleaseAt(index: nat, level: nat)

  datatype World = World(s: State, busy: set<Block>)

  /** An empty allocator: all descriptors zero, no free block. */
  ghost function Initial(offset: nat, pages: nat, levels: nat): (r: World)
    requires levels > 0
    ensures Ready(r.s, r.busy) && forall p :: !Managed(r, p)
  {
    var s := State(offset, seq(pages, _ => 0), seq(pages, _ => false), seq(levels, _ => []));
    EmptyReady(s);
    World(s, {})
  }

  /** The operations a caller may perform; `free_pages` takes the level from the page. */
  ghost predicate Legal(w: World, op: Op) {
    match op
    case Allocation(order) => true
    case Release(i) => Shape(w.s) && InZone(w.s, i) && MayFree(w.s, w.busy, i, LevelOf(w.s, i))
    case ReleaseAt(i, l) => MayFree(w.s, w.busy, i, l)
  }

  ghost function Step(w: World, op: Op): (r: World)
    requires Ready(w.s, w.busy) && Legal(w, op)
    ensures Ready(r.s, r.busy) && SameZone(w.s, r.s)
  {
    match op
    case Allocation(order) =>
      if CanAllocate(w.s, order) then
        AllocateInv(w.s, w.busy, order);
        World(Allocate(w.s, order), w.busy + {Block(Chosen(w.s, order), order)})
      else w
    case Release(i) =>
      FreeInv(w.s, w.busy, i, LevelOf(w.s, i));
      World(FreeAt(w.s, i, LevelOf(w.s, i)), w.busy - {Block(i, LevelOf(w.s, i))})
    case ReleaseAt(i, l) =>
      FreeInv(w.s, w.busy, i, l);
      World(FreeAt(w.s, i, l), w.busy - {Block(i, l)})
  }

  ghost predicate LegalRun(w: World, ops: seq<Op>)
    requires Ready(w.s, w.busy)
    decreases |ops|
  {
    ops == [] || (Legal(w, ops[0]) && LegalRun(Step(w, ops[0]), ops[1..]))
  }

  ghost function Run(w: World, ops: seq<Op>): (r: World)
    requires Ready(w.s, w.busy) && LegalRun(w, ops)
    decreases |ops|
  {
    if ops == [] then w else Run(Step(w, ops[0]), ops[1..])
  }

  /** The pages a world accounts for: they only grow, and only by frees of new pages. */
  ghost predicate Managed(w: World, p: nat) {
    Covered(w.s, w.busy, p)
  }

  ghost predicate FreedBy(ops: seq<Op>, w: World, p: nat)
    requires Ready(w.s, w.busy) && LegalRun(w, ops)
    decreases |ops|
  {
    ops != [] && (
      || (ops[0].Release? && In(p, ops[0].index, LevelOf(w.s, ops[0].index)))
      || (ops[0].ReleaseAt? && In(p, ops[0].index, ops[0].level))
      || FreedBy(ops[1..], Step(w, ops[0]), p))
  }

  lemma StepPages(w: World, op: Op, p: nat)
    requires Ready(w.s, w.busy) && Legal(w, op)
    ensures Managed(Step(w, op), p) <==>
      || Managed(w, p)
      || (op.Release? && In(p, op.index, LevelOf(w.s, op.index)))
      || (op.ReleaseAt? && In(p, op.index, op.level))
  {
    match op
    case Allocation(order) =>
      if CanAllocate(w.s, order) {
        AllocateInv(w.s, w.busy, order);
      }
    case Release(i) => FreeInv(w.s, w.busy, i, LevelOf(w.s, i));
    case ReleaseAt(i, l) => FreeInv(w.s, w.busy, i, l);
  }

  /** Safety over whole runs: the free blocks and the blocks handed out stay well placed and
    * pairwise disjoint, and together they are the pages managed at the start and those
    * freed since. */
  lemma {:induction false} RunSafety(w: World, ops: seq<Op>)
    requires Ready(w.s, w.busy) && LegalRun(w, ops)
    ensures var r := Run(w, ops);
      && Ready(r.s, r.busy) && SameZone(w.s, r.s)
      && forall p :: FreePage(r.s, p) || InBlocks(r.busy, p) <==> Managed(w, p) || FreedBy(ops, w, p)
    decreases |ops|
  {
    if ops == [] {
      forall p
        ensures FreePage(w.s, p) || InBlocks(w.busy, p) <==> Managed(w, p)
      {
        assert w.busy + {} == w.busy;
        FreeOrOut(w.s, w.busy, p);
      }
    } else {
      RunSafety(Step(w, ops[0]), ops[1..]);
      forall p
        ensures Managed(w, p) || FreedBy(ops, w, p) <==>
          Managed(Step(w, ops[0]), p) || FreedBy(ops[1..], Step(w, ops[0]), p)
      {
        StepPages(w, ops[0], p);
      }
    }
  }

  /** After any legal run from an empty allocator, free blocks and blocks handed out are exactly
    * the pages that were ever freed: nothing is lost and nothing is invented. */
  lemma RunFromEmpty(offset: nat, pages: nat, levels: nat, ops: seq<Op>)
    requires levels > 0 && LegalRun(Initial(offset, pages, levels), ops)
    ensures var w := Initial(offset, pages, levels); var r := Run(w, ops);
      && Ready(r.s, r.busy)
      && forall p :: FreePage(r.s, p) || InBlocks(r.busy, p) <==> FreedBy(ops, w, p)
  {
    hide FreePage, InBlocks, FreedBy, Ready, Run, LegalRun;
    RunSafety(Initial(offset, pages, levels), ops);
  }

  /** What a caller may rely on in a reachable state. */
  lemma BlocksAreDisjoint(w: World, b: Block, c: Block)
    requires Ready(w.s, w.busy) && b in w.busy && c in w.busy && b != c
    ensures BlockOk(w.s, b.head, b.level) && Apart(b.head, b.level, c.head, c.level)
    ensures LevelOf(w.s, b.head) == b.level && Legal(w, Release(b.head))
    ensures forall p :: In(p, b.head, b.level) ==> !FreePage(w.s, p)
  {
    assert w.busy + {} == w.busy;
    assert Known(w.s, w.busy, b.head, b.level) && Known(w.s, w.busy, c.head, c.level);
    assert b == Block(b.head, b.level) && c == Block(c.head, c.level);
    forall p | In(p, b.head, b.level)
      ensures !FreePage(w.s, p)
    {
      FreeOrOut(w.s, w.busy, p);
      assert InBlocks(w.busy, p);
    }
  }
}
