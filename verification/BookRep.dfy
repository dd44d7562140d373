/** How pool slots, level lists and the id map together represent a book, and what each kind of
    memory update does to the book represented. */
module BookRep {
  import opened Types
  import opened Queues
  import opened LimitOrderBook
  import opened ObjectPool
  import opened PriceLevels

  const NO_ORDER: Order := Order(0, Bid, Limit, INVALID_PRICE, 0, 0, 0, 0, 0)

  function OrderAt(mem: Memory, k: int): Order {
    if LiveAt(mem, k) then mem[k].obj.o else NO_ORDER
  }

  function Ids(mem: Memory, nodes: seq<int>): seq<OrderId> {
    seq(|nodes|, i requires 0 <= i < |nodes| => OrderAt(mem, nodes[i]).id)
  }

  function OrdersOf(mem: Memory, index: map<OrderId, int>): map<OrderId, Order> {
    map id | id in index :: OrderAt(mem, index[id])
  }

  ghost function LevelsOf(mem: Memory, reps: map<Tick, LevelRep>): map<Tick, Level> {
    map p | p in reps :: Level(Ids(mem, reps[p].nodes), reps[p].total)
  }

  /** The id map points at the live slots, one id each. */
  ghost predicate IndexOK(mem: Memory, index: map<OrderId, int>) {
    && (forall id :: id in index ==> LiveAt(mem, index[id]) && OrderAt(mem, index[id]).id == id)
    && (forall k :: LiveAt(mem, k) ==> OrderAt(mem, k).id in index && index[OrderAt(mem, k).id] == k)
  }

  /** A level's list is intact, not empty, and holds orders of its own side and price. */
  ghost predicate RepOK(mem: Memory, s: Side, p: Tick, r: LevelRep) {
    && RepValid(mem, r)
    && r.nodes != []
    && (forall i :: 0 <= i < |r.nodes| ==> OrderAt(mem, r.nodes[i]).side == s && OrderAt(mem, r.nodes[i]).price == p)
  }

  ghost predicate SideRepOK(mem: Memory, s: Side, reps: map<Tick, LevelRep>) {
    forall p :: p in reps ==> RepOK(mem, s, p, reps[p])
  }

  /** The two memories hold the same orders in the same slots, except perhaps in slot p. */
  ghost predicate SameObjects(mem: Memory, mem': Memory, p: int) {
    && |mem'| == |mem|
    && (forall k :: k != p ==> LiveAt(mem', k) == LiveAt(mem, k))
    && (forall k :: k != p ==> OrderAt(mem', k) == OrderAt(mem, k))
  }

  lemma RelinkedSameObjects(mem: Memory, mem': Memory, nodes: seq<int>, p: int)
    requires Relinked(mem, mem', nodes)
    ensures SameObjects(mem, mem', p) && SameObjects(mem, mem', NULL)
    ensures LiveAt(mem', p) == LiveAt(mem, p) && OrderAt(mem', p) == OrderAt(mem, p)
  {
  }

  lemma NodesAreLive(mem: Memory, s: Side, p: Tick, r: LevelRep, i: nat)
    requires RepOK(mem, s, p, r) && i < |r.nodes|
    ensures LiveAt(mem, r.nodes[i])
  {
  }

  lemma SameIds(mem: Memory, mem': Memory, p: int, nodes: seq<int>)
    requires SameObjects(mem, mem', p) && p !in nodes
    ensures Ids(mem', nodes) == Ids(mem, nodes)
  {
    assert forall i :: 0 <= i < |nodes| ==> nodes[i] in nodes;
  }

  /** A level none of whose slots changed. */
  lemma UntouchedRepOK(mem: Memory, mem': Memory, s: Side, p: Tick, r: LevelRep)
    requires RepOK(mem, s, p, r) && |mem'| == |mem|
    requires forall k :: k in r.nodes && LiveAt(mem, k) ==> mem'[k] == mem[k]
    ensures RepOK(mem', s, p, r)
  {
    forall i | 0 <= i < |r.nodes|
      ensures mem'[r.nodes[i]] == mem[r.nodes[i]]
    {
      NodesAreLive(mem, s, p, r, i);
      assert r.nodes[i] in r.nodes;
    }
    LinkedFrame(mem, mem', r.nodes);
  }

  /** Memory changed only in slot p and, by relinking, in slots of the level at (s, at). Every other
      level of the book is untouched. */
  lemma OtherLevelsRepOK(mem: Memory, mem': Memory, s: Side, at: Tick, nodes: seq<int>, p: int, t: Side,
      reps: map<Tick, LevelRep>)
    requires SideRepOK(mem, t, reps) && |mem'| == |mem|
    requires forall k :: 0 <= k < |mem| && k !in nodes && k != p ==> mem'[k] == mem[k]
    requires forall k :: k in nodes ==> OrderAt(mem, k).side == s && OrderAt(mem, k).price == at
    requires forall q, i :: q in reps && (t != s || q != at) && 0 <= i < |reps[q].nodes| ==> reps[q].nodes[i] != p
    ensures forall q :: q in reps && (t != s || q != at) ==> RepOK(mem', t, q, reps[q])
  {
    forall q | q in reps && (t != s || q != at)
      ensures RepOK(mem', t, q, reps[q])
    {
      var r := reps[q];
      assert RepOK(mem, t, q, r);
      forall k | k in r.nodes && LiveAt(mem, k)
        ensures mem'[k] == mem[k]
      {
        var i :| 0 <= i < |r.nodes| && r.nodes[i] == k;
        assert OrderAt(mem, r.nodes[i]).side == t && OrderAt(mem, r.nodes[i]).price == q;
      }
      UntouchedRepOK(mem, mem', t, q, r);
    }
  }

  lemma IdsDistinct(mem: Memory, index: map<OrderId, int>, s: Side, p: Tick, r: LevelRep)
    requires IndexOK(mem, index) && RepOK(mem, s, p, r)
    ensures NoDup(Ids(mem, r.nodes))
  {
    forall i, j | 0 <= i < j < |r.nodes|
      ensures OrderAt(mem, r.nodes[i]).id != OrderAt(mem, r.nodes[j]).id
    {
      NodesAreLive(mem, s, p, r, i);
      NodesAreLive(mem, s, p, r, j);
      assert r.nodes[i] != r.nodes[j];
    }
  }

  lemma IdsSplit(mem: Memory, nodes: seq<int>, k: nat)
    requires k < |nodes|
    ensures Ids(mem, nodes[..k] + nodes[k + 1..]) == Ids(mem, nodes)[..k] + Ids(mem, nodes)[k + 1..]
    ensures |Ids(mem, nodes)| == |nodes| && Ids(mem, nodes)[k] == OrderAt(mem, nodes[k]).id
  {
  }

  lemma IdsWithout(mem: Memory, index: map<OrderId, int>, s: Side, p: Tick, r: LevelRep, x: int)
    requires IndexOK(mem, index) && RepOK(mem, s, p, r) && x in r.nodes
    ensures Ids(mem, Without(r.nodes, x)) == Without(Ids(mem, r.nodes), OrderAt(mem, x).id)
  {
    hide IndexOK, Without, Ids, OrderAt, Linked;
    var k :| 0 <= k < |r.nodes| && r.nodes[k] == x;
    IdsDistinct(mem, index, s, p, r);
    LinkedNoDup(mem, r.nodes);
    hide RepOK, RepValid, NoDup;
    WithoutAt(r.nodes, k);
    IdsSplit(mem, r.nodes, k);
    WithoutAt(Ids(mem, r.nodes), k);
  }

  lemma LinkedNoDup(mem: Memory, nodes: seq<int>)
    requires Linked(mem, nodes)
    ensures NoDup(nodes)
  {
  }

  lemma IdsAppend(mem: Memory, nodes: seq<int>, p: int)
    ensures Ids(mem, nodes + [p]) == Ids(mem, nodes) + [OrderAt(mem, p).id]
  {
  }

  // ---------------------------------------------------------------- raw states

  /** Everything an order book stores, read off the heap. */
  datatype Raw = Raw(
    mem: Memory,
    bids: map<Tick, LevelRep>,
    asks: map<Tick, LevelRep>,
    index: map<OrderId, int>,
    bestBid: Tick,
    bestAsk: Tick,
    scans: nat)
  {
    function On(s: Side): map<Tick, LevelRep> {
      if s.Bid? then bids else asks
    }

    function Best(s: Side): Tick {
      if s.Bid? then bestBid else bestAsk
    }

    function WithSide(s: Side, reps: map<Tick, LevelRep>): Raw {
      if s.Bid? then this.(bids := reps) else this.(asks := reps)
    }

    function WithBest(s: Side, best: Tick): Raw {
      if s.Bid? then this.(bestBid := best) else this.(bestAsk := best)
    }
  }

  ghost predicate RawOK(r: Raw) {
    && IndexOK(r.mem, r.index)
    && SideRepOK(r.mem, Bid, r.bids)
    && SideRepOK(r.mem, Ask, r.asks)
  }

  /** The book a raw state stands for. */
  ghost function ModelOf(r: Raw): Book {
    Book(OrdersOf(r.mem, r.index),
      Ladder(LevelsOf(r.mem, r.bids), r.bestBid),
      Ladder(LevelsOf(r.mem, r.asks), r.bestAsk),
      |r.mem|, r.scans)
  }

  ghost function NodesAt(r: Raw, s: Side, p: Tick): seq<int> {
    if p in r.On(s) then r.On(s)[p].nodes else []
  }

  lemma NodesAtOK(r: Raw, s: Side, p: Tick, k: int)
    requires RawOK(r) && k in NodesAt(r, s, p)
    ensures LiveAt(r.mem, k) && OrderAt(r.mem, k).side == s && OrderAt(r.mem, k).price == p
  {
    assert RepOK(r.mem, s, p, r.On(s)[p]);
    var i :| 0 <= i < |r.On(s)[p].nodes| && r.On(s)[p].nodes[i] == k;
    NodesAreLive(r.mem, s, p, r.On(s)[p], i);
  }

  /** The frame of every update: orders outside slot p are the same, and slots that are neither p nor
      in the level at (s, at) are bit for bit the same. */
  ghost predicate Confined(r: Raw, mem': Memory, s: Side, at: Tick, p: int) {
    && SameObjects(r.mem, mem', p)
    && (forall k :: 0 <= k < |r.mem| && k !in NodesAt(r, s, at) && k != p ==> mem'[k] == r.mem[k])
  }

  /** Slot p is in no level other than (s, at). */
  ghost predicate OnlyAt(r: Raw, s: Side, at: Tick, p: int) {
    forall t, q :: p in NodesAt(r, t, q) ==> t == s && q == at
  }

  lemma OthersKept(r: Raw, mem': Memory, s: Side, at: Tick, p: int, t: Side)
    requires RawOK(r) && Confined(r, mem', s, at, p) && OnlyAt(r, s, at, p)
    ensures forall q :: q in r.On(t) && (t != s || q != at) ==>
      RepOK(mem', t, q, r.On(t)[q]) && Ids(mem', r.On(t)[q].nodes) == Ids(r.mem, r.On(t)[q].nodes)
  {
    assert SideRepOK(r.mem, t, r.On(t));
    forall k | k in NodesAt(r, s, at)
      ensures OrderAt(r.mem, k).side == s && OrderAt(r.mem, k).price == at
    {
      NodesAtOK(r, s, at, k);
    }
    forall q | q in r.On(t) && (t != s || q != at)
      ensures p !in r.On(t)[q].nodes
    {
      assert NodesAt(r, t, q) == r.On(t)[q].nodes;
    }
    OtherLevelsRepOK(r.mem, mem', s, at, NodesAt(r, s, at), p, t, r.On(t));
    forall q | q in r.On(t) && (t != s || q != at)
      ensures Ids(mem', r.On(t)[q].nodes) == Ids(r.mem, r.On(t)[q].nodes)
    {
      SameIds(r.mem, mem', p, r.On(t)[q].nodes);
    }
  }

  /** The opposite side of a confined update stands for the same levels. */
  lemma OtherSideKept(r: Raw, mem': Memory, s: Side, at: Tick, p: int)
    requires RawOK(r) && Confined(r, mem', s, at, p) && OnlyAt(r, s, at, p)
    ensures SideRepOK(mem', s.Opposite(), r.On(s.Opposite()))
    ensures LevelsOf(mem', r.On(s.Opposite())) == LevelsOf(r.mem, r.On(s.Opposite()))
  {
    hide RawOK, Confined, OnlyAt, RepOK, Ids;
    OthersKept(r, mem', s, at, p, s.Opposite());
  }

  /** The updated side, once its one changed level is known to be right. */
  lemma OwnSideKept(r: Raw, mem': Memory, s: Side, at: Tick, p: int, rep: LevelRep)
    requires RawOK(r) && Confined(r, mem', s, at, p) && OnlyAt(r, s, at, p)
    requires RepOK(mem', s, at, rep)
    ensures SideRepOK(mem', s, r.On(s)[at := rep])
    ensures LevelsOf(mem', r.On(s)[at := rep]) == LevelsOf(r.mem, r.On(s))[at := Level(Ids(mem', rep.nodes), rep.total)]
  {
    hide RawOK, Confined, OnlyAt, RepOK, Ids;
    OthersKept(r, mem', s, at, p, s);
  }

  lemma OwnSideDropped(r: Raw, mem': Memory, s: Side, at: Tick, p: int)
    requires RawOK(r) && Confined(r, mem', s, at, p) && OnlyAt(r, s, at, p)
    ensures SideRepOK(mem', s, r.On(s) - {at})
    ensures LevelsOf(mem', r.On(s) - {at}) == LevelsOf(r.mem, r.On(s)) - {at}
  {
    hide RawOK, Confined, OnlyAt, RepOK, Ids;
    OthersKept(r, mem', s, at, p, s);
  }

  // ---------------------------------------------------------------- the id map

  lemma IndexKept(mem: Memory, mem': Memory, index: map<OrderId, int>, p: int)
    requires IndexOK(mem, index) && SameObjects(mem, mem', p) && LiveAt(mem, p) && LiveAt(mem', p)
    requires OrderAt(mem', p).id == OrderAt(mem, p).id
    ensures IndexOK(mem', index)
    ensures OrdersOf(mem', index) == OrdersOf(mem, index)[OrderAt(mem, p).id := OrderAt(mem', p)]
  {
  }

  lemma IndexAdded(mem: Memory, mem': Memory, index: map<OrderId, int>, p: int)
    requires IndexOK(mem, index) && SameObjects(mem, mem', p) && !LiveAt(mem, p) && LiveAt(mem', p)
    requires OrderAt(mem', p).id !in index
    ensures IndexOK(mem', index[OrderAt(mem', p).id := p])
    ensures OrdersOf(mem', index[OrderAt(mem', p).id := p])
        == OrdersOf(mem, index)[OrderAt(mem', p).id := OrderAt(mem', p)]
  {
  }

  lemma IndexRemoved(mem: Memory, mem': Memory, index: map<OrderId, int>, p: int)
    requires IndexOK(mem, index) && SameObjects(mem, mem', p) && LiveAt(mem, p) && !LiveAt(mem', p)
    ensures IndexOK(mem', index - {OrderAt(mem, p).id})
    ensures OrdersOf(mem', index - {OrderAt(mem, p).id}) == OrdersOf(mem, index) - {OrderAt(mem, p).id}
  {
  }
}
