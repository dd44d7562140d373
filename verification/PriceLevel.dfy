/** price_level.hpp: the orders resting at one price, as an intrusive doubly linked list of pool slots. */
module PriceLevels {
  import opened Types
  import opened Queues
  import opened ObjectPool

  /** An order with its list links: what one live pool slot holds. */
  datatype Node = Node(o: Order, prev: int, next: int)

  type Memory = seq<Slot<Node>>

  predicate LiveAt(mem: Memory, k: int) {
    0 <= k < |mem| && mem[k].Live?
  }

  function PrevOf(nodes: seq<int>, i: nat): int
    requires i < |nodes|
  {
    if i == 0 then NULL else nodes[i - 1]
  }

  /** The links of these slots spell out exactly this sequence. */
  ghost predicate Linked(mem: Memory, nodes: seq<int>) {
    && NoDup(nodes)
    && (forall i :: 0 <= i < |nodes| ==>
          && LiveAt(mem, nodes[i])
          && mem[nodes[i]].obj.prev == PrevOf(nodes, i)
          && mem[nodes[i]].obj.next == NextOf(nodes, i))
  }

  function LastOf(nodes: seq<int>): int {
    if nodes == [] then NULL else nodes[|nodes| - 1]
  }

  /** Only list links changed, and only in slots of these nodes. */
  ghost predicate Relinked(mem: Memory, mem': Memory, nodes: seq<int>) {
    && |mem'| == |mem|
    && (forall k :: 0 <= k < |mem| ==>
          mem'[k] == mem[k] || (k in nodes && LiveAt(mem, k) && LiveAt(mem', k) && mem'[k].obj.o == mem[k].obj.o))
  }

  function WithNext(mem: Memory, k: int, v: int): Memory
    requires k == NULL || LiveAt(mem, k)
  {
    if k == NULL then mem else mem[k := Live(mem[k].obj.(next := v))]
  }

  function WithPrev(mem: Memory, k: int, v: int): Memory
    requires k == NULL || LiveAt(mem, k)
  {
    if k == NULL then mem else mem[k := Live(mem[k].obj.(prev := v))]
  }

  function WithLinks(mem: Memory, k: int, prev: int, next: int): Memory
    requires LiveAt(mem, k)
  {
    mem[k := Live(mem[k].obj.(prev := prev, next := next))]
  }

  function Volume(mem: Memory, nodes: seq<int>): int {
    if nodes == [] then 0
    else Volume(mem, nodes[..|nodes| - 1])
         + if LiveAt(mem, nodes[|nodes| - 1]) then mem[nodes[|nodes| - 1]].obj.o.Remaining() else 0
  }

  // ---------------------------------------------------------------- appending

  lemma LinkedAppend(mem: Memory, nodes: seq<int>, p: int)
    requires Linked(mem, nodes) && LiveAt(mem, p) && p !in nodes
    ensures LastOf(nodes) == NULL || LiveAt(mem, LastOf(nodes))
    ensures var mem' := WithNext(WithLinks(mem, p, LastOf(nodes), NULL), LastOf(nodes), p);
      Linked(mem', nodes + [p]) && Relinked(mem, mem', nodes + [p])
  {
    var nodes' := nodes + [p];
    var mem' := WithNext(WithLinks(mem, p, LastOf(nodes), NULL), LastOf(nodes), p);
    NoDupConcat(nodes, [p]);
    forall i | 0 <= i < |nodes'|
      ensures LiveAt(mem', nodes'[i]) && mem'[nodes'[i]].obj.prev == PrevOf(nodes', i)
          && mem'[nodes'[i]].obj.next == NextOf(nodes', i)
    {
      if i < |nodes| {
        assert nodes'[i] == nodes[i] && nodes[i] in nodes;
        if i + 1 < |nodes| {
          assert nodes[i] != nodes[|nodes| - 1];
        }
      }
    }
  }

  // ---------------------------------------------------------------- unlinking

  /** Slot p is live and its links lead to live slots other than itself. */
  ghost predicate CanUnlink(mem: Memory, p: int) {
    && LiveAt(mem, p)
    && var n := mem[p].obj;
    && n.prev != p && n.next != p && (n.prev == n.next ==> n.prev == NULL)
    && (n.prev == NULL || LiveAt(mem, n.prev)) && (n.next == NULL || LiveAt(mem, n.next))
  }

  ghost function Unlinked(mem: Memory, p: int): Memory
    requires CanUnlink(mem, p)
  {
    var n := mem[p].obj;
    WithLinks(WithPrev(WithNext(mem, n.prev, n.next), n.next, n.prev), p, NULL, NULL)
  }

  lemma NeighboursLive(mem: Memory, nodes: seq<int>, k: nat)
    requires Linked(mem, nodes) && k < |nodes|
    ensures CanUnlink(mem, nodes[k])
    ensures mem[nodes[k]].obj.prev == PrevOf(nodes, k) && mem[nodes[k]].obj.next == NextOf(nodes, k)
    ensures mem[nodes[k]].obj.prev == NULL <==> k == 0
    ensures mem[nodes[k]].obj.next == NULL <==> k == |nodes| - 1
  {
    if k > 0 {
      assert LiveAt(mem, nodes[k - 1]);
    }
    if k + 1 < |nodes| {
      assert LiveAt(mem, nodes[k + 1]);
    }
  }

  /** The nodes other than the removed one, where they stand afterwards. */
  function Skip(k: nat, i: nat): nat {
    if i < k then i else i + 1
  }

  lemma UnlinkedNode(mem: Memory, nodes: seq<int>, k: nat, i: nat)
    requires Linked(mem, nodes) && k < |nodes| && i < |nodes| && i != k
    ensures CanUnlink(mem, nodes[k])
    ensures var mem' := Unlinked(mem, nodes[k]);
      && LiveAt(mem', nodes[i])
      && mem'[nodes[i]].obj.prev == (if i == k + 1 then PrevOf(nodes, k) else PrevOf(nodes, i))
      && mem'[nodes[i]].obj.next == (if i + 1 == k then NextOf(nodes, k) else NextOf(nodes, i))
  {
    NeighboursLive(mem, nodes, k);
    NeighboursLive(mem, nodes, i);
    UnlinkedAt(mem, nodes[k], nodes[i]);
    DistinctFrom(nodes, k, i);
    hide Linked, NoDup, CanUnlink, Unlinked;
  }

  /** What unlinking p does to another slot x: at most one of its links skips p. */
  lemma UnlinkedAt(mem: Memory, p: int, x: int)
    requires CanUnlink(mem, p) && LiveAt(mem, x) && x != p
    ensures var n, m, mem' := mem[p].obj, mem[x].obj, Unlinked(mem, p);
      && LiveAt(mem', x)
      && mem'[x].obj.prev == (if x == n.next then n.prev else m.prev)
      && mem'[x].obj.next == (if x == n.prev then n.next else m.next)
  {
  }

  lemma DistinctFrom(nodes: seq<int>, k: nat, i: nat)
    requires NoDup(nodes) && k < |nodes| && i < |nodes| && i != k
    ensures nodes[i] != nodes[k]
    ensures k > 0 && i != k - 1 ==> nodes[i] != nodes[k - 1]
    ensures k + 1 < |nodes| && i != k + 1 ==> nodes[i] != nodes[k + 1]
  {
  }

  /** Neighbours in the sequence without its k-th element. */
  lemma RestNeighbours(nodes: seq<int>, k: nat, i: nat, j: nat)
    requires k < |nodes| && i < |nodes| - 1 && j == Skip(k, i)
    ensures var rest := nodes[..k] + nodes[k + 1..];
      && rest[i] == nodes[j]
      && PrevOf(rest, i) == (if j == k + 1 then PrevOf(nodes, k) else PrevOf(nodes, j))
      && NextOf(rest, i) == (if j + 1 == k then NextOf(nodes, k) else NextOf(nodes, j))
  {
  }

  lemma UnlinkedRest(mem: Memory, nodes: seq<int>, k: nat)
    requires Linked(mem, nodes) && k < |nodes|
    ensures CanUnlink(mem, nodes[k])
    ensures Linked(Unlinked(mem, nodes[k]), nodes[..k] + nodes[k + 1..])
  {
    NeighboursLive(mem, nodes, k);
    var mem', rest := Unlinked(mem, nodes[k]), nodes[..k] + nodes[k + 1..];
    forall i | 0 <= i < |rest|
      ensures LiveAt(mem', rest[i]) && mem'[rest[i]].obj.prev == PrevOf(rest, i)
          && mem'[rest[i]].obj.next == NextOf(rest, i)
    {
      RestNeighbours(nodes, k, i, Skip(k, i));
      UnlinkedNode(mem, nodes, k, Skip(k, i));
    }
    forall i, j | 0 <= i < j < |rest|
      ensures rest[i] != rest[j]
    {
      RestNeighbours(nodes, k, i, Skip(k, i));
      RestNeighbours(nodes, k, j, Skip(k, j));
    }
  }

  lemma UnlinkedRelinks(mem: Memory, nodes: seq<int>, k: nat)
    requires Linked(mem, nodes) && k < |nodes|
    ensures CanUnlink(mem, nodes[k])
    ensures Relinked(mem, Unlinked(mem, nodes[k]), nodes)
  {
    NeighboursLive(mem, nodes, k);
    assert k > 0 ==> nodes[k - 1] in nodes;
    assert k + 1 < |nodes| ==> nodes[k + 1] in nodes;
  }

  /** Head and tail after the k-th element is gone. */
  lemma FirstLastRest(nodes: seq<int>, k: nat)
    requires k < |nodes|
    ensures var rest := nodes[..k] + nodes[k + 1..];
      && FirstOf(rest) == (if k == 0 then NextOf(nodes, k) else FirstOf(nodes))
      && LastOf(rest) == (if k == |nodes| - 1 then PrevOf(nodes, k) else LastOf(nodes))
  {
  }

  // ---------------------------------------------------------------- frame

  /** A list none of whose nodes was relinked is still linked. */
  lemma LinkedFrame(mem: Memory, mem': Memory, nodes: seq<int>)
    requires Linked(mem, nodes) && |mem'| == |mem|
    requires forall i :: 0 <= i < |nodes| ==> mem'[nodes[i]] == mem[nodes[i]]
    ensures Linked(mem', nodes)
  {
  }

  /** Changing the order in a slot but not its links keeps every list. */
  lemma LinkedUpdate(mem: Memory, nodes: seq<int>, p: int, o: Order)
    requires Linked(mem, nodes) && LiveAt(mem, p)
    ensures Linked(mem[p := Live(mem[p].obj.(o := o))], nodes)
  {
  }

  lemma VolumeIsPrefixSum(mem: Memory, nodes: seq<int>, k: nat)
    requires k < |nodes| && LiveAt(mem, nodes[k])
    ensures Volume(mem, nodes[..k + 1]) == Volume(mem, nodes[..k]) + mem[nodes[k]].obj.o.Remaining()
  {
    assert nodes[..k + 1][..k] == nodes[..k];
  }

  // ---------------------------------------------------------------- the level

  datatype LevelRep = LevelRep(head: int, tail: int, total: int, count: nat, nodes: seq<int>)

  ghost predicate RepValid(mem: Memory, r: LevelRep) {
    && Linked(mem, r.nodes)
    && r.head == FirstOf(r.nodes)
    && r.tail == LastOf(r.nodes)
    && r.count == |r.nodes|
  }

  method SetNext(mem: array<Slot<Node>>, k: int, v: int)
    requires LiveAt(mem[..], k)
    modifies mem
    ensures mem[..] == WithNext(old(mem[..]), k, v)
  {
    mem[k] := Live(mem[k].obj.(next := v));
  }

  method SetPrev(mem: array<Slot<Node>>, k: int, v: int)
    requires LiveAt(mem[..], k)
    modifies mem
    ensures mem[..] == WithPrev(old(mem[..]), k, v)
  {
    mem[k] := Live(mem[k].obj.(prev := v));
  }

  method SetLinks(mem: array<Slot<Node>>, k: int, prev: int, next: int)
    requires LiveAt(mem[..], k)
    modifies mem
    ensures mem[..] == WithLinks(old(mem[..]), k, prev, next)
  {
    mem[k] := Live(mem[k].obj.(prev := prev, next := next));
  }

  /** Joins the neighbours of slot p to each other and clears its own links. */
  method Unlink(mem: array<Slot<Node>>, p: int) returns (n: Node)
    requires CanUnlink(mem[..], p)
    modifies mem
    ensures n == old(mem[..])[p].obj
    ensures mem[..] == Unlinked(old(mem[..]), p)
  {
    n := mem[..][p].obj;
    if n.prev != NULL {
      SetNext(mem, n.prev, n.next);
    }
    if n.next != NULL {
      SetPrev(mem, n.next, n.prev);
    }
    SetLinks(mem, p, NULL, NULL);
  }

  lemma UnlinkedSelf(mem: Memory, p: int)
    requires CanUnlink(mem, p)
    ensures var mem' := Unlinked(mem, p); LiveAt(mem', p) && mem'[p].obj.prev == NULL && mem'[p].obj.next == NULL
  {
  }

  /** The representation after the k-th node is unlinked. */
  ghost function RepWithout(r: LevelRep, k: nat, n: Node): LevelRep
    requires k < |r.nodes|
  {
    LevelRep(if n.prev == NULL then n.next else r.head, if n.next == NULL then n.prev else r.tail,
      r.total - n.o.Remaining(), if r.count > 0 then r.count - 1 else 0, Without(r.nodes, r.nodes[k]))
  }

  lemma UnlinkKeepsRep(mem: Memory, r: LevelRep, k: nat)
    requires RepValid(mem, r) && k < |r.nodes|
    ensures CanUnlink(mem, r.nodes[k]) && LiveAt(mem, r.nodes[k]) && r.count > 0
    ensures var mem' := Unlinked(mem, r.nodes[k]);
      RepValid(mem', RepWithout(r, k, mem[r.nodes[k]].obj)) && Relinked(mem, mem', r.nodes)
  {
    NeighboursLive(mem, r.nodes, k);
    UnlinkedRest(mem, r.nodes, k);
    UnlinkedRelinks(mem, r.nodes, k);
    WithoutAt(r.nodes, k);
    FirstLastRest(r.nodes, k);
    hide Linked, Relinked, Unlinked;
  }

  class PriceLevel {
    ghost const side: Side   // the place in the book this level was made for
    ghost const price: Tick
    var head: int
    var tail: int
    var total: int
    var count: nat
    ghost var nodes: seq<int>

    ghost function Rep(): LevelRep
      reads this
    {
      LevelRep(head, tail, total, count, nodes)
    }

    constructor (ghost side: Side, ghost price: Tick)
      ensures Rep() == LevelRep(NULL, NULL, 0, 0, []) && this.side == side && this.price == price
    {
      this.side, this.price := side, price;
      head, tail, total, count, nodes := NULL, NULL, 0, 0, [];
    }

    predicate Empty()
      reads this
    {
      head == NULL
    }

    /** Appends slot p: the newest order has the lowest time priority. */
    method PushBack(mem: array<Slot<Node>>, p: int)
      requires RepValid(mem[..], Rep()) && LiveAt(mem[..], p) && p !in nodes
      requires mem[p].obj.prev == NULL && mem[p].obj.next == NULL
      modifies this, mem
      ensures RepValid(mem[..], Rep()) && Relinked(old(mem[..]), mem[..], nodes)
      ensures nodes == old(nodes) + [p]
      ensures total == old(total) + old(mem[p].obj.o.Remaining())
    {
      LinkedAppend(mem[..], nodes, p);
      hide Linked, Relinked;
      SetLinks(mem, p, tail, NULL);
      if tail != NULL {
        SetNext(mem, tail, p);
      } else {
        head := p;
      }
      tail := p;
      total := total + mem[..][p].obj.o.Remaining();
      count := count + 1;
      nodes := nodes + [p];
    }

    /** Unlinks slot p from anywhere in the list; the others keep their order. */
    method Remove(mem: array<Slot<Node>>, p: int)
      requires RepValid(mem[..], Rep()) && p in nodes
      modifies this, mem
      ensures RepValid(mem[..], Rep()) && Relinked(old(mem[..]), mem[..], old(nodes))
      ensures nodes == Without(old(nodes), p)
      ensures LiveAt(old(mem[..]), p) && total == old(total) - old(mem[..])[p].obj.o.Remaining()
      ensures LiveAt(mem[..], p) && mem[..][p].obj.prev == NULL && mem[..][p].obj.next == NULL
    {
      ghost var k :| 0 <= k < |nodes| && nodes[k] == p;
      UnlinkKeepsRep(mem[..], Rep(), k);
      UnlinkedSelf(mem[..], p);
      hide RepValid, Relinked, Unlinked, CanUnlink;
      var n := Unlink(mem, p);
      Forget(n, k);
    }

    /** Takes the unlinked node n, which was the k-th, out of the level's own fields. */
    method Forget(n: Node, ghost k: nat)
      requires k < |nodes| && count > 0
      modifies this
      ensures Rep() == RepWithout(old(Rep()), k, n)
    {
      if n.prev == NULL {
        head := n.next;
      }
      if n.next == NULL {
        tail := n.prev;
      }
      total := total - n.o.Remaining();
      count := count - 1;
      nodes := Without(nodes, nodes[k]);
    }

    /** Takes the oldest order off the front. */
    method PopFront(mem: array<Slot<Node>>) returns (p: int)
      requires RepValid(mem[..], Rep())
      modifies this, mem
      ensures RepValid(mem[..], Rep()) && Relinked(old(mem[..]), mem[..], old(nodes))
      ensures old(nodes) == [] ==> p == NULL && Rep() == old(Rep())
      ensures old(nodes) != [] ==> p == old(nodes)[0] && nodes == old(nodes)[1..]
      ensures old(nodes) != [] ==> LiveAt(old(mem[..]), p) && total == old(total) - old(mem[..])[p].obj.o.Remaining()
    {
      if head == NULL {
        assert nodes != [] ==> LiveAt(mem[..], nodes[0]);
        return NULL;
      }
      UnlinkKeepsRep(mem[..], Rep(), 0);
      assert Without(nodes, nodes[0]) == nodes[1..];
      NeighboursLive(mem[..], nodes, 0);
      p := head;
      hide RepValid, Relinked, Unlinked, CanUnlink;
      var n := Unlink(mem, p);
      head := n.next;
      if n.next == NULL {
        tail := NULL;
      }
      total := total - n.o.Remaining();
      count := count - 1;
      nodes := nodes[1..];
    }

    /** A partial fill shrinks the level without touching the list. */
    method ReduceQuantity(amount: int)
      modifies this
      ensures Rep() == old(Rep()).(total := old(total) - amount)
    {
      total := total - amount;
    }

    /** What stands in the queue before slot p: the sum over the nodes ahead of it. */
    method QueueVolumeAhead(mem: array<Slot<Node>>, p: int) returns (vol: int)
      requires RepValid(mem[..], Rep())
      ensures vol == Volume(mem[..], Ahead(nodes, p))
    {
      vol := 0;
      var cur := head;
      ghost var i := 0;
      while cur != NULL && cur != p
        invariant 0 <= i <= |nodes|
        invariant cur == if i < |nodes| then nodes[i] else NULL
        invariant p !in nodes[..i]
        invariant vol == Volume(mem[..], nodes[..i])
        decreases |nodes| - i
      {
        NeighboursLive(mem[..], nodes, i);
        VolumeIsPrefixSum(mem[..], nodes, i);
        vol := vol + mem[cur].obj.o.Remaining();
        cur := mem[cur].obj.next;
        i := i + 1;
      }
      if i < |nodes| {
        NeighboursLive(mem[..], nodes, i);
      }
      AheadIs(nodes, p, i);
    }

    /** Shrinks an order in place: it keeps its position, and the level loses the difference. */
    method ModifyQtyDown(mem: array<Slot<Node>>, p: int, qty: int) returns (delta: int)
      requires RepValid(mem[..], Rep()) && LiveAt(mem[..], p)
      modifies this, mem
      ensures delta == old(mem[p].obj.o.Remaining()) - qty
      ensures var n := old(mem[..])[p].obj;
        mem[..] == old(mem[..])[p := Live(n.(o := n.o.(qty := n.o.filled + qty)))]
      ensures RepValid(mem[..], Rep()) && Rep() == old(Rep()).(total := old(total) - delta)
    {
      var o := mem[p].obj.o;
      delta := o.qty - o.filled - qty;
      LinkedUpdate(mem[..], nodes, p, o.(qty := o.filled + qty));
      mem[p] := Live(mem[p].obj.(o := o.(qty := o.filled + qty)));
      total := total - delta;
      assert mem[..] == old(mem[..])[p := mem[p]];
    }
  }
}
