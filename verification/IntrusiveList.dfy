/** The doubly linked intrusive list of `kernel/intrusive/src/list.rs`.
  *
  * A link is embedded in its page; `owner` is the position of that page in the page
  * array, which is what `container_of` recovers by pointer arithmetic.
  */
module IntrusiveList {
  import opened Sequences

  class Link {
    var next: Link?
    var prev: Link?
    const owner: nat

    constructor (owner: nat)
      ensures next == null && prev == null && this.owner == owner
    {
      this.next := null;
      this.prev := null;
      this.owner := owner;
    }
  }

  class List {
    var head: Link?
    var tail: Link?
    ghost var nodes: seq<Link>

    ghost predicate Valid()
      reads this, nodes
    {
      && Linked(nodes)
      && head == Neighbour(nodes, 0)
      && tail == Neighbour(nodes, |nodes| - 1)
    }

    constructor ()
      ensures Valid() && nodes == []
    {
      head := null;
      tail := null;
      nodes := [];
    }

    predicate IsEmpty()
      requires Valid()
      reads this, nodes
      ensures IsEmpty() <==> nodes == []
    {
      head == null
    }

    method Push(link: Link)
      requires Valid() && link !in nodes
      modifies this, nodes, link
      ensures Valid() && nodes == [link] + old(nodes)
    {
      link.next := head;
      link.prev := null;
      if head == null {
        tail := link;
      } else {
        head.prev := link;
      }
      head := link;
      nodes := [link] + nodes;
    }

    method Pop() returns (link: Link?)
      requires Valid()
      modifies this, nodes
      ensures Valid()
      ensures old(nodes) == [] ==> link == null && nodes == []
      ensures old(nodes) != [] ==> link == old(nodes)[0] && nodes == old(nodes)[1..]
      ensures link != null ==> link.next == null && link.prev == null
    {
      if head == null {
        return null;
      }
      var node := head;
      if head == tail {
        head := null;
        tail := null;
      } else {
        assert node == nodes[0] && node.next == nodes[1];
        head := node.next;
        node.next.prev := null;
      }
      node.next := null;
      node.prev := null;
      nodes := nodes[1..];
      return node;
    }

    method Remove(link: Link)
      requires Valid() && link in nodes
      modifies this, nodes
      ensures Valid() && nodes == Without<Link>(old(nodes), link)
      ensures link.next == null && link.prev == null
      ensures forall n: Link :: n in nodes ==> n in old(nodes)
    {
      hide Linked, Neighbour, Bypassed, Without, NoDuplicates;
      ghost var k: nat :| k < |nodes| && nodes[k] == link;
      ghost var q := nodes;
      Bypass(link, k);
      RestInside(q, link, Without<Link>(q, link));
      RemovedIsLinked(q, k);
      nodes := Without<Link>(q, link);
    }

    /** Leaves the link out of the chain of its neighbours. */
    method Bypass(link: Link, ghost k: nat)
      requires Valid() && k < |nodes| && nodes[k] == link
      modifies this`head, this`tail, nodes
      ensures Bypassed(nodes, k) && NoDuplicates<Link>(nodes) && link.next == null && link.prev == null
      ensures head == Neighbour(nodes, if k == 0 then 1 else 0)
      ensures tail == Neighbour(nodes, if k == |nodes| - 1 then k - 1 else |nodes| - 1)
    {
      var prev, next := link.prev, link.next;
      link.next := null;
      link.prev := null;
      if prev != null {
        prev.next := next;
      }
      if next != null {
        next.prev := prev;
      }
      if head == link {
        head := next;
      }
      if tail == link {
        tail := prev;
      }
    }
  }

  function Neighbour(q: seq<Link>, j: int): Link? {
    if 0 <= j < |q| then q[j] else null
  }

  /** Every link points to its neighbours in `q`. */
  ghost predicate Linked(q: seq<Link>)
    reads q
  {
    && NoDuplicates<Link>(q)
    && (forall j {:trigger q[j].next} :: 0 <= j < |q| ==> q[j].next == Neighbour(q, j + 1))
    && (forall j {:trigger q[j].prev} :: 0 <= j < |q| ==> q[j].prev == Neighbour(q, j - 1))
  }

  /** Every link but the one at `k` points to its neighbours in `q` with `k` left out. */
  ghost predicate Bypassed(q: seq<Link>, k: int)
    requires 0 <= k < |q|
    reads q
  {
    && NoDuplicates<Link>(q)
    && (forall j {:trigger q[j].next} :: 0 <= j < |q| && j != k ==>
          q[j].next == Neighbour(q, if j + 1 == k then k + 1 else j + 1))
    && (forall j {:trigger q[j].prev} :: 0 <= j < |q| && j != k ==>
          q[j].prev == Neighbour(q, if j - 1 == k then k - 1 else j - 1))
  }

  lemma RestInside(q: seq<Link>, link: Link, r: seq<Link>)
    requires NoDuplicates<Link>(q) && r == Without<Link>(q, link)
    ensures forall n: Link :: n in r ==> n in q
  {
    WithoutFacts<Link>(q, link);
    assert forall n: Link :: n in Without<Link>(q, link) ==> n in q;
  }

  /** `r` is `q` with position `k` left out. */
  ghost predicate Skips(q: seq<Link>, k: int, r: seq<Link>) {
    && |r| == |q| - 1
    && forall j :: Neighbour(r, j) == Neighbour(q, if j < k then j else j + 1)
  }

  lemma SliceSkips(q: seq<Link>, k: int)
    requires 0 <= k < |q|
    ensures Skips(q, k, q[..k] + q[k + 1..])
  {
  }

  lemma WithoutSkips(q: seq<Link>, k: int)
    requires 0 <= k < |q| && NoDuplicates<Link>(q)
    ensures NoDuplicates<Link>(Without<Link>(q, q[k])) && Skips(q, k, Without<Link>(q, q[k]))
  {
    assert NoDuplicates<Link>(Without<Link>(q, q[k])) by {
      WithoutFacts<Link>(q, q[k]);
    }
    SliceSkips(q, k);
    WithoutAt<Link>(q, k);
  }

  lemma BypassedIsLinked(q: seq<Link>, k: int, r: seq<Link>)
    requires 0 <= k < |q| && Bypassed(q, k) && NoDuplicates<Link>(r) && Skips(q, k, r)
    ensures Linked(r)
  {
    forall j | 0 <= j < |r|
      ensures r[j].next == Neighbour(r, j + 1) && r[j].prev == Neighbour(r, j - 1)
    {
      var h := if j < k then j else j + 1;
      assert Neighbour(r, j) == Neighbour(q, h) == q[h];
    }
  }

  lemma RemovedIsLinked(q: seq<Link>, k: int)
    requires 0 <= k < |q| && Bypassed(q, k)
    ensures var r := Without<Link>(q, q[k]);
      && Linked(r)
      && Neighbour(r, 0) == Neighbour(q, if k == 0 then 1 else 0)
      && Neighbour(r, |r| - 1) == Neighbour(q, if k == |q| - 1 then k - 1 else |q| - 1)
  {
    WithoutSkips(q, k);
    BypassedIsLinked(q, k, Without<Link>(q, q[k]));
  }
}
