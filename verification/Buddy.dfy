/** The buddy allocator of `kernel/memory/src/buddy.rs`, with the page descriptors of
  * `kernel/memory/src/page.rs`, proved to compute the functions of `BuddySpec`.
  */
module Buddy {
  import opened BuddySpec
  import opened IntrusiveList
  import opened Numeric
  import opened Sequences
  import opened Wrappers

  const LEVELS: nat := 20

  /** A page descriptor: level in the low byte of `state`, FREE bit above it. */
  class Page {
    const link: Link
    var state: nat

    constructor (owner: nat)
      ensures fresh(link) && link.owner == owner && state == 0
    {
      link := new Link(owner);
      state := 0;
    }

    function Level(): nat
      reads this
    {
      state % 0x100
    }

    predicate IsFree()
      reads this
    {
      (state / 0x100) % 2 == 1
    }

    /** The source asserts that the level fits in the mask. */
    method SetLevel(level: nat)
      requires level < 0x100
      modifies this
      ensures Level() == level && IsFree() == old(IsFree()) && state / 0x100 == old(state / 0x100)
    {
      state := level + (state - state % 0x100);
    }

    method SetFree()
      modifies this
      ensures IsFree() && Level() == old(Level()) && state / 0x200 == old(state / 0x200)
    {
      if (state / 0x100) % 2 == 0 {
        state := state + 0x100;
      }
    }

    method SetBusy()
      modifies this
      ensures !IsFree() && Level() == old(Level()) && state / 0x200 == old(state / 0x200)
    {
      if (state / 0x100) % 2 == 1 {
        state := state - 0x100;
      }
    }
  }

  class BuddySystem {
    const free: seq<List>
    const pages: seq<Page>
    const offset: nat
    /** The lists and the links of the pages. */
    ghost const wires: set<object>
    /** Everything the allocator may change. */
    ghost const repr: set<object>
    ghost var busy: set<Block>

    /** The objects of the allocator, fixed at construction. */
    ghost predicate Wired() {
      && |free| == LEVELS
      && this !in wires && this in repr && wires <= repr
      && (forall i :: 0 <= i < |pages| ==> pages[i] in repr)
      && (forall i :: 0 <= i < |pages| ==>
            pages[i] !in wires && pages[i].link in wires && pages[i].link.owner == i)
      && (forall l :: 0 <= l < LEVELS ==> free[l] in wires)
      && (forall l, m :: 0 <= l < LEVELS && 0 <= m < LEVELS && l != m ==> free[l] != free[m])
    }

    /** `link` is the link of one of the pages. */
    ghost predicate Owned(link: Link) {
      link.owner < |pages| && link == pages[link.owner].link
    }

    /** The lists are well linked and no link is on two lists. */
    ghost predicate ListsOk()
      requires Wired()
      reads wires
    {
      && (forall l, n :: 0 <= l < LEVELS && n in free[l].nodes ==> Owned(n) && n in wires)
      && (forall l :: 0 <= l < LEVELS ==> free[l].Valid())
      && (forall l, m, n ::
            0 <= l < LEVELS && 0 <= m < LEVELS && l != m && n in free[l].nodes ==> n !in free[m].nodes)
    }

    function Heads(nodes: seq<Link>): (r: seq<nat>)
      ensures |r| == |nodes|
      ensures forall k :: 0 <= k < |r| ==> r[k] == offset + nodes[k].owner
    {
      seq(|nodes|, k requires 0 <= k < |nodes| => offset + nodes[k].owner)
    }

    ghost function Lists(): (r: seq<seq<nat>>)
      requires Wired()
      reads wires
      ensures |r| == LEVELS && forall l :: 0 <= l < LEVELS ==> r[l] == Heads(free[l].nodes)
    {
      seq(LEVELS, l requires 0 <= l < LEVELS && Wired() reads wires => Heads(free[l].nodes))
    }

    ghost function Levels(): (r: seq<nat>)
      reads pages
      ensures |r| == |pages| && forall i :: 0 <= i < |pages| ==> r[i] == pages[i].Level()
    {
      seq(|pages|, i requires 0 <= i < |pages| reads pages => pages[i].Level())
    }

    ghost function Flags(): (r: seq<bool>)
      reads pages
      ensures |r| == |pages| && forall i :: 0 <= i < |pages| ==> r[i] == pages[i].IsFree()
    {
      seq(|pages|, i requires 0 <= i < |pages| reads pages => pages[i].IsFree())
    }

    /** What the allocator stores, as a value. */
    ghost function Model(): (s: State)
      requires Wired()
      reads wires, pages
      ensures Shape(s) && |s.level| == |pages| && |s.free| == LEVELS && s.offset == offset
    {
      State(offset, Levels(), Flags(), Lists())
    }

    ghost predicate Valid()
      reads repr
    {
      Wired() && ListsOk() && Ready(Model(), busy)
    }

    // ----- list operations on pages

    lemma OnList(l: nat, i: nat)
      requires Wired() && ListsOk() && l < LEVELS && i < |pages|
      ensures pages[i].link in free[l].nodes <==> offset + i in Lists()[l]
    {
      if pages[i].link in free[l].nodes {
        var k :| 0 <= k < |free[l].nodes| && free[l].nodes[k] == pages[i].link;
        assert Heads(free[l].nodes)[k] == offset + i;
      }
      if offset + i in Lists()[l] {
        var k :| 0 <= k < |Heads(free[l].nodes)| && Heads(free[l].nodes)[k] == offset + i;
        assert Owned(free[l].nodes[k]);
      }
    }

    method PushLink(link: Link, l: nat)
      requires Wired() && ListsOk() && Owned(link) && link in wires && l < LEVELS
      requires forall m :: 0 <= m < LEVELS ==> link !in free[m].nodes
      modifies wires
      ensures ListsOk()
      ensures free[l].nodes == [link] + old(free[l].nodes)
      ensures forall m :: 0 <= m < LEVELS && m != l ==> free[m].nodes == old(free[m].nodes)
    {
      hide List.Valid, Shape;
      free[l].Push(link);
      forall m | 0 <= m < LEVELS && m != l
        ensures free[m].Valid() && free[m].nodes == old(free[m].nodes)
      {
        ghost var others := old(free[m].nodes);
        assert unchanged(free[m]);
        forall k | 0 <= k < |others|
          ensures unchanged(others[k])
        {
          assert others[k] in others && others[k] !in old(free[l].nodes);
        }
        assert unchanged(others);
      }
    }

    method PushPage(i: nat, l: nat)
      requires Wired() && ListsOk() && i < |pages| && l < LEVELS
      requires forall m :: 0 <= m < LEVELS ==> offset + i !in Lists()[m]
      modifies wires
      ensures ListsOk()
      ensures Model() == old(Model()).(free := old(Lists())[l := [offset + i] + old(Lists())[l]])
    {
      hide BuddySystem.Flags, BuddySystem.Heads, BuddySystem.Levels, BuddySystem.Lists, BuddySystem.ListsOk,
        Page.IsFree, Page.Level, Shape;
      forall m | 0 <= m < LEVELS
        ensures pages[i].link !in free[m].nodes
      {
        OnList(m, i);
      }
      PushLink(pages[i].link, l);
      HeadsCons(pages[i].link, old(free[l].nodes));
      assert Lists() == old(Lists())[l := [offset + i] + old(Lists())[l]];
    }

    method PopLink(l: nat) returns (link: Link?)
      requires Wired() && ListsOk() && l < LEVELS
      modifies wires
      ensures ListsOk()
      ensures old(free[l].nodes) == [] ==> link == null && free[l].nodes == []
      ensures old(free[l].nodes) != [] ==>
        link == old(free[l].nodes)[0] && Owned(link) && free[l].nodes == old(free[l].nodes)[1..]
      ensures forall m :: 0 <= m < LEVELS && m != l ==> free[m].nodes == old(free[m].nodes)
    {
      hide List.Valid;
      link := free[l].Pop();
      forall m | 0 <= m < LEVELS && m != l
        ensures free[m].Valid() && free[m].nodes == old(free[m].nodes)
      {
        ghost var others := old(free[m].nodes);
        assert unchanged(free[m]);
        forall k | 0 <= k < |others|
          ensures unchanged(others[k])
        {
          assert others[k] in others && others[k] !in old(free[l].nodes);
        }
        assert unchanged(others);
      }
      assert forall n :: n in free[l].nodes ==> n in old(free[l].nodes);
    }

    method RemoveLink(link: Link, l: nat)
      requires Wired() && ListsOk() && l < LEVELS && link in free[l].nodes
      modifies wires
      ensures ListsOk()
      ensures free[l].nodes == Without<Link>(old(free[l].nodes), link)
      ensures forall m :: 0 <= m < LEVELS && m != l ==> free[m].nodes == old(free[m].nodes)
    {
      hide List.Valid, Without;
      free[l].Remove(link);
      forall m | 0 <= m < LEVELS && m != l
        ensures free[m].Valid() && free[m].nodes == old(free[m].nodes)
      {
        ghost var others := old(free[m].nodes);
        assert unchanged(free[m]);
        forall k | 0 <= k < |others|
          ensures unchanged(others[k])
        {
          assert others[k] in others && others[k] !in old(free[l].nodes);
        }
        assert unchanged(others);
      }
    }

    /** `pop`, and the index of the popped page. */
    method PopPage(l: nat) returns (i: Option<nat>)
      requires Wired() && ListsOk() && l < LEVELS
      modifies wires
      ensures ListsOk()
      ensures old(Lists())[l] == [] ==> i == None && Lists() == old(Lists())
      ensures old(Lists())[l] != [] ==>
        && i.Some? && i.value < |pages| && offset + i.value == old(Lists())[l][0]
        && Lists() == old(Lists())[l := old(Lists())[l][1..]]
    {
      hide BuddySystem.Heads, BuddySystem.Lists, BuddySystem.ListsOk;
      ghost var was := Lists();
      assert |was[l]| == |free[l].nodes|;
      if free[l].nodes != [] {
        HeadsTail(free[l].nodes);
      }
      var link := PopLink(l);
      if link == null {
        assert Lists() == was;
        return None;
      }
      assert Lists() == old(Lists())[l := old(Lists())[l][1..]];
      return Some(link.owner);
    }

    lemma HeadsTail(nodes: seq<Link>)
      requires nodes != []
      ensures Heads(nodes[1..]) == Heads(nodes)[1..]
    {
    }

    lemma HeadsCons(node: Link, nodes: seq<Link>)
      ensures Heads([node] + nodes) == [offset + node.owner] + Heads(nodes)
    {
    }

    lemma {:induction false} HeadsWithout(nodes: seq<Link>, link: Link)
      requires forall n :: n in nodes ==> Owned(n)
      requires Owned(link)
      ensures Heads(Without<Link>(nodes, link)) == Without<nat>(Heads(nodes), offset + link.owner)
    {
      if nodes == [] {
        assert Heads([]) == [];
      } else {
        assert nodes == [nodes[0]] + nodes[1..] && Owned(nodes[0]);
        HeadsCons(nodes[0], nodes[1..]);
        HeadsCons(nodes[0], Without<Link>(nodes[1..], link));
        HeadsWithout(nodes[1..], link);
        hide Heads;
        assert ([offset + nodes[0].owner] + Heads(nodes[1..]))[1..] == Heads(nodes[1..]);
      }
    }

    method RemovePage(i: nat, l: nat)
      requires Wired() && ListsOk() && i < |pages| && l < LEVELS
      requires offset + i in Lists()[l]
      modifies wires
      ensures ListsOk() && Lists() == old(Lists())[l := Without<nat>(old(Lists())[l], offset + i)]
    {
      ghost var was := Lists();
      OnList(l, i);
      ghost var rest := Without<Link>(free[l].nodes, pages[i].link);
      assert Heads(rest) == Without<nat>(was[l], offset + i) by {
        HeadsWithout(free[l].nodes, pages[i].link);
      }
      RemoveLink(pages[i].link, l);
      assert Lists() == was[l := Heads(rest)];
    }

    method TagFree(i: nat, l: nat)
      requires Wired() && i < |pages| && l < LEVELS
      modifies pages[i]
      ensures Levels() == old(Levels())[i := l] && Flags() == old(Flags())[i := true]
    {
      pages[i].SetLevel(l);
      pages[i].SetFree();
    }

    method TagBusy(i: nat, l: nat)
      requires Wired() && i < |pages| && l < LEVELS
      modifies pages[i]
      ensures Levels() == old(Levels())[i := l] && Flags() == old(Flags())[i := false]
    {
      pages[i].SetBusy();
      pages[i].SetLevel(l);
    }

    /** `set_level`, `set_free` and `push`. */
    method Offer(i: nat, l: nat)
      requires Wired() && ListsOk() && i < |pages| && l < LEVELS
      requires forall m :: 0 <= m < LEVELS ==> offset + i !in Lists()[m]
      modifies wires, pages[i]
      ensures ListsOk() && Model() == Push(old(Model()), offset + i, l)
    {
      hide BuddySystem.Flags, BuddySystem.Heads, BuddySystem.Levels, BuddySystem.Lists, BuddySystem.ListsOk,
        List.Valid, Page.IsFree, Page.Level, Shape;
      TagFree(i, l);
      ghost var tags := (Levels(), Flags());
      PushPage(i, l);
      assert Levels() == tags.0 && Flags() == tags.1;
    }

    method PopModel(l: nat) returns (i: Option<nat>)
      requires Wired() && ListsOk() && l < LEVELS
      modifies wires
      ensures ListsOk()
      ensures old(Model()).free[l] == [] ==> i == None && Model() == old(Model())
      ensures old(Model()).free[l] != [] ==>
        && i.Some? && i.value < |pages|
        && offset + i.value == old(Model()).free[l][0] && Model() == Pop(old(Model()), l)
    {
      hide ListsOk;
      ghost var tags := (Levels(), Flags());
      i := PopPage(l);
      assert Levels() == tags.0 && Flags() == tags.1;
    }

    method RemoveModel(i: nat, l: nat)
      requires Wired() && ListsOk() && i < |pages| && l < LEVELS
      requires offset + i in Model().free[l]
      modifies wires
      ensures ListsOk() && Model() == Remove(old(Model()), offset + i, l)
    {
      hide ListsOk;
      ghost var tags := (Levels(), Flags());
      RemovePage(i, l);
      assert Levels() == tags.0 && Flags() == tags.1;
    }

    /** `set_busy` and `set_level`. */
    method ClaimPage(i: nat, l: nat)
      requires Wired() && ListsOk() && i < |pages| && l < LEVELS
      modifies pages[i]
      ensures ListsOk() && Model() == Claim(old(Model()), offset + i, l)
    {
      hide ListsOk;
      ghost var lists := Lists();
      TagBusy(i, l);
      assert Lists() == lists;
    }

    // ----- the allocator

    static method EmptyLists() returns (lists: seq<List>)
      ensures |lists| == LEVELS
      ensures forall l :: 0 <= l < LEVELS ==> fresh(lists[l]) && lists[l].Valid() && lists[l].nodes == []
      ensures forall l, m :: 0 <= l < LEVELS && 0 <= m < LEVELS && l != m ==> lists[l] != lists[m]
    {
      lists := [];
      while |lists| < LEVELS
        invariant |lists| <= LEVELS
        invariant forall l :: 0 <= l < |lists| ==> fresh(lists[l]) && lists[l].Valid() && lists[l].nodes == []
        invariant forall l, m :: 0 <= l < |lists| && 0 <= m < |lists| && l != m ==> lists[l] != lists[m]
      {
        var list := new List();
        lists := lists + [list];
      }
    }

    lemma EmptyModel()
      requires Wired() && forall l :: 0 <= l < LEVELS ==> free[l].nodes == []
      requires forall i :: 0 <= i < |pages| ==> !pages[i].IsFree()
      ensures Ready(Model(), {}) && forall p :: !Covered(Model(), {}, p)
    {
      hide Ready, Covered;
      assert forall l :: 0 <= l < LEVELS ==> Heads(free[l].nodes) == [];
      EmptyReady(Model());
    }

    /** Takes the page descriptors as they are: none may be flagged free. */
    constructor (pages: seq<Page>, offset: nat)
      requires forall i :: 0 <= i < |pages| ==> pages[i].link.owner == i && !pages[i].IsFree()
      ensures this.pages == pages && this.offset == offset && busy == {}
      ensures Valid() && forall p :: !Covered(Model(), busy, p)
      ensures fresh(repr - (set page | page in pages) - (set page | page in pages :: page.link))
    {
      hide BuddySystem.Model, BuddySystem.Owned, Covered, List.Valid, Page.IsFree, Ready, Shape;
      var lists := EmptyLists();
      this.free := lists;
      this.pages := pages;
      this.offset := offset;
      wires := (set list: object | list in lists) + (set page | page in pages :: page.link);
      repr := {this} + wires + set page | page in pages;
      busy := {};
      new;
      assert Wired();
      EmptyModel();
    }

    /** Splits the popped block down to the wanted order, the upper halves go on the lists. */
    method SplitAndReturn(page: nat, index: nat, order: nat)
      requires Wired() && ListsOk() && page < |pages| && index == offset + page
      requires order <= pages[page].Level() < LEVELS
      requires Block(index, pages[page].Level()) !in busy && Inv(Model(), busy, {Block(index, pages[page].Level())})
      modifies wires, pages
      ensures ListsOk() && BlockOk(old(Model()), index, old(pages[page].Level()))
      ensures Model() == Split(old(Model()), index, old(pages[page].Level()), order)
    {
      hide Inv, ListsOk, Push, FlipBit, SamePages, Aligned, Model;
      var from := pages[page].Level();
      ghost var s := Model();
      HandOk(s, busy, index, from);
      var level := from;
      while level > order
        invariant order <= level <= from && ListsOk()
        invariant Block(index, level) !in busy && Inv(Model(), busy, {Block(index, level)})
        invariant BlockOk(Model(), index, level) && Split(Model(), index, level, order) == Split(s, index, from, order)
      {
        level := level - 1;
        SplitOnce(Model(), busy, index, level);
        var buddy := FlipBit(index, level) - offset;
        Unlisted(FlipBit(index, level));
        Offer(buddy, level);
      }
    }

    lemma Unlisted(i: nat)
      requires Wired() && forall m :: 0 <= m < LEVELS ==> i !in Model().free[m]
      ensures forall m :: 0 <= m < LEVELS ==> i !in Lists()[m]
    {
      assert Model().free == Lists();
    }

    ghost predicate Intact(s: State, busy': set<Block>)
      reads this, wires, pages
    {
      Wired() && ListsOk() && Model() == s && busy == busy'
    }

    /** `allocate_pages`: the lowest level with a free block, split down to the order. */
    method AllocatePages(order: nat) returns (r: Option<nat>)
      requires Valid()
      modifies repr
      ensures Valid()
      ensures r.Some? <==> CanAllocate(old(Model()), order)
      ensures r == None ==> Model() == old(Model()) && busy == old(busy)
      ensures r.Some? ==>
        && r.value == Chosen(old(Model()), order)
        && BlockOk(old(Model()), r.value, FirstLevel(old(Model()), order))
        && Model() == Allocate(old(Model()), order)
        && busy == old(busy) + {Block(r.value, order)}
    {
      hide Inv, ListsOk, Model;
      ghost var s := Model();
      var level := order;
      while level < LEVELS
        invariant order <= level && FirstLevel(s, order) == FirstLevel(s, level)
        invariant Intact(s, old(busy))
      {
        var page := PopModel(level);
        if page.Some? {
          r := Some(offset + page.value);
          Carve(s, page.value, level, order);
          return;
        }
        level := level + 1;
      }
      return None;
    }

    /** The rest of `allocate_pages` once a page is popped. */
    method Carve(ghost s: State, page: nat, ghost level: nat, order: nat)
      requires Wired() && ListsOk() && page < |pages| && order <= level < LEVELS
      requires Ready(s, busy) && Shape(s) && |s.free| == LEVELS && s.free[level] != []
      requires level == FirstLevel(s, order)
      requires Model() == Pop(s, level) && s.free[level][0] == offset + page
      modifies repr
      ensures Valid() && busy == old(busy) + {Block(offset + page, order)}
      ensures CanAllocate(s, order) && Chosen(s, order) == offset + page
      ensures BlockOk(s, Chosen(s, order), FirstLevel(s, order)) && Model() == Allocate(s, order)
    {
      hide Inv, ListsOk, SamePages, Aligned, Split, Claim, Model;
      PopReady(s, busy, level);
      PageLevel(page);
      SplitAndReturn(page, offset + page, order);
      ClaimPage(page, order);
      AllocateInv(s, busy, order);
      busy := busy + {Block(offset + page, order)};
    }

    lemma PageLevel(page: nat)
      requires Wired() && page < |pages|
      ensures InZone(Model(), offset + page) && pages[page].Level() == LevelOf(Model(), offset + page)
      ensures pages[page].IsFree() <==> Flagged(Model(), offset + page)
    {
    }

    /** `free_pages`: the level is the one recorded in the page. */
    method FreePages(index: nat)
      requires Valid() && InZone(Model(), index) && MayFree(Model(), busy, index, LevelOf(Model(), index))
      modifies repr
      ensures BlockOk(old(Model()), index, old(LevelOf(Model(), index)))
      ensures Valid() && busy == old(busy) - {Block(index, old(LevelOf(Model(), index)))}
      ensures Model() == FreeAt(old(Model()), index, old(LevelOf(Model(), index)))
    {
      hide Inv, ListsOk, FreeAt, MayFree, Aligned;
      PageLevel(index - offset);
      FreePagesAtLevel(index, pages[index - offset].Level());
    }

    /** `free_pages_at_level`: merges the block with its buddy as long as that is free. */
    method FreePagesAtLevel(index: nat, level: nat)
      requires Valid() && MayFree(Model(), busy, index, level)
      modifies repr
      ensures BlockOk(old(Model()), index, level)
      ensures Valid() && busy == old(busy) - {Block(index, level)}
      ensures Model() == FreeAt(old(Model()), index, level)
    {
      hide Inv, ListsOk, Model, Aligned, FlipBit, SamePages, Push, Remove;
      ghost var s := Model();
      var i: nat, l: nat := index, level;
      FreeStart(s, busy, i, l);
      busy := busy - {Block(i, l)};
      while l < LEVELS - 1
        invariant l < LEVELS && Wired() && ListsOk()
        invariant BlockOk(Model(), i, l) && Block(i, l) !in busy && Inv(Model(), busy, {Block(i, l)})
        invariant busy == old(busy) - {Block(index, level)}
        invariant FreeAt(Model(), i, l) == FreeAt(s, index, level)
      {
        var buddy := FlipBit(i, l);
        if !(offset <= buddy < offset + |pages|) {
          break;
        }
        var page := pages[buddy - offset];
        PageLevel(buddy - offset);
        if !page.IsFree() {
          break;
        }
        if page.Level() != l {
          break;
        }
        MergeOnce(Model(), busy, i, l);
        RemoveModel(buddy - offset, l);
        i := Min(i, buddy);
        l := l + 1;
      }
      assert !Merges(Model(), i, l);
      MergeEnd(Model(), busy, i, l);
      Unlisted(i);
      Offer(i - offset, l);
    }
  }
}
