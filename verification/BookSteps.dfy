/** Each update the order book makes to its slots, lists and maps, as a relation between raw states,
    and the operation on book values that it implements. */
module BookSteps {
  import opened Types
  import opened Queues
  import opened LimitOrderBook
  import opened ObjectPool
  import opened PriceLevels
  import opened BookRep

  ghost function TotalAt(r: Raw, s: Side, p: Tick): int {
    if p in r.On(s) then r.On(s)[p].total else 0
  }

  /** Nothing changed but, perhaps, memory, the id map and one side. */
  ghost predicate OtherSideSame(r: Raw, r': Raw, s: Side) {
    r'.On(s.Opposite()) == r.On(s.Opposite()) && r'.Best(s.Opposite()) == r.Best(s.Opposite())
  }

  lemma ModelIs(r: Raw, b: Book, s: Side)
    requires b.orders == OrdersOf(r.mem, r.index) && b.capacity == |r.mem| && b.scans == r.scans
    requires b.On(s) == Ladder(LevelsOf(r.mem, r.On(s)), r.Best(s))
    requires b.On(s.Opposite()) == Ladder(LevelsOf(r.mem, r.On(s.Opposite())), r.Best(s.Opposite()))
    ensures ModelOf(r) == b
  {
  }

  lemma RawIsOK(r: Raw, s: Side)
    requires IndexOK(r.mem, r.index) && SideRepOK(r.mem, s, r.On(s))
        && SideRepOK(r.mem, s.Opposite(), r.On(s.Opposite()))
    ensures RawOK(r)
  {
  }

  // ---------------------------------------------------------------- adding

  /** A free slot p now holds o, at the back of the list at o's side and price. */
  ghost predicate Enlisted(r: Raw, r': Raw, p: int, o: Order, rep: LevelRep, shown: int) {
    && !LiveAt(r.mem, p)
    && Confined(r, r'.mem, o.side, o.price, p)
    && LiveAt(r'.mem, p) && OrderAt(r'.mem, p) == o
    && RepValid(r'.mem, rep)
    && rep.nodes == NodesAt(r, o.side, o.price) + [p]
    && rep.total == TotalAt(r, o.side, o.price) + shown
    && r'.index == r.index[o.id := p]
    && r'.On(o.side) == r.On(o.side)[o.price := rep]
    && r'.Best(o.side) == Improve(o.side, r.Best(o.side), o.price)
    && OtherSideSame(r, r', o.side)
    && r'.scans == r.scans
  }

  lemma FreeIsNowhere(r: Raw, s: Side, at: Tick, p: int)
    requires RawOK(r) && !LiveAt(r.mem, p)
    ensures OnlyAt(r, s, at, p) && p !in NodesAt(r, s, at)
  {
    forall t, q
      ensures p !in NodesAt(r, t, q)
    {
      if p in NodesAt(r, t, q) {
        NodesAtOK(r, t, q, p);
      }
    }
  }

  lemma EnlistedRepOK(r: Raw, r': Raw, p: int, o: Order, rep: LevelRep, shown: int)
    requires RawOK(r) && Enlisted(r, r', p, o, rep, shown)
    ensures RepOK(r'.mem, o.side, o.price, rep)
    ensures Ids(r'.mem, rep.nodes) == Ids(r.mem, NodesAt(r, o.side, o.price)) + [o.id]
  {
    var nodes := NodesAt(r, o.side, o.price);
    FreeIsNowhere(r, o.side, o.price, p);
    forall i | 0 <= i < |rep.nodes|
      ensures OrderAt(r'.mem, rep.nodes[i]).side == o.side && OrderAt(r'.mem, rep.nodes[i]).price == o.price
    {
      if i < |nodes| {
        assert rep.nodes[i] == nodes[i] && nodes[i] in nodes;
        NodesAtOK(r, o.side, o.price, nodes[i]);
      }
    }
    IdsAppend(r'.mem, nodes, p);
    SameIds(r.mem, r'.mem, p, nodes);
  }

  lemma EnlistedOther(r: Raw, r': Raw, p: int, o: Order, rep: LevelRep, shown: int)
    requires RawOK(r) && Enlisted(r, r', p, o, rep, shown)
    ensures SideRepOK(r'.mem, o.side.Opposite(), r'.On(o.side.Opposite()))
    ensures LevelsOf(r'.mem, r'.On(o.side.Opposite())) == LevelsOf(r.mem, r.On(o.side.Opposite()))
  {
    hide RawOK, RepValid, Confined, OnlyAt, LevelsOf, SideRepOK;
    FreeIsNowhere(r, o.side, o.price, p);
    OtherSideKept(r, r'.mem, o.side, o.price, p);
  }

  lemma EnlistedOwn(r: Raw, r': Raw, p: int, o: Order, rep: LevelRep, shown: int)
    requires RawOK(r) && Enlisted(r, r', p, o, rep, shown)
    ensures SideRepOK(r'.mem, o.side, r'.On(o.side))
    ensures LevelsOf(r'.mem, r'.On(o.side))
         == LevelsOf(r.mem, r.On(o.side))[o.price :=
              Level(Ids(r.mem, NodesAt(r, o.side, o.price)) + [o.id], TotalAt(r, o.side, o.price) + shown)]
  {
    assert
      && RepOK(r'.mem, o.side, o.price, rep)
      && Ids(r'.mem, rep.nodes) == Ids(r.mem, NodesAt(r, o.side, o.price)) + [o.id] by {
      hide RawOK, Enlisted, RepOK;
      EnlistedRepOK(r, r', p, o, rep, shown);
    }
    hide RawOK, RepOK, RepValid, Confined, OnlyAt, LevelsOf, SideRepOK, Ids, NodesAt;
    FreeIsNowhere(r, o.side, o.price, p);
    OwnSideKept(r, r'.mem, o.side, o.price, p, rep);
  }

  lemma EnlistedIndex(r: Raw, r': Raw, p: int, o: Order, rep: LevelRep, shown: int)
    requires RawOK(r) && o.id !in r.index && Enlisted(r, r', p, o, rep, shown)
    ensures |r'.mem| == |r.mem| && IndexOK(r'.mem, r'.index)
    ensures OrdersOf(r'.mem, r'.index) == OrdersOf(r.mem, r.index)[o.id := o]
  {
    hide SideRepOK, RepValid, NodesAt, OtherSideSame, Improve, TotalAt, SameObjects, IndexOK, OrdersOf;
    assert SameObjects(r.mem, r'.mem, p);
    SameSize(r.mem, r'.mem, p);
    IndexAdded(r.mem, r'.mem, r.index, p);
  }

  lemma SameSize(mem: Memory, mem': Memory, p: int)
    requires SameObjects(mem, mem', p)
    ensures |mem'| == |mem|
  {
  }

  lemma LevelAtRaw(r: Raw, s: Side, p: Tick)
    ensures LevelAt(ModelOf(r).On(s), p) == Level(Ids(r.mem, NodesAt(r, s, p)), TotalAt(r, s, p))
  {
  }

  /** add_order and add_iceberg_order on raw states are Insert on books. */
  lemma EnlistedModel(r: Raw, r': Raw, p: int, o: Order, rep: LevelRep, shown: int)
    requires RawOK(r) && o.id !in r.index && Enlisted(r, r', p, o, rep, shown)
    ensures RawOK(r') && ModelOf(r') == Insert(ModelOf(r), o, shown)
  {
    hide Enlisted, RawOK, IndexOK, SideRepOK, OrdersOf, LevelsOf, Ids, NodesAt, TotalAt;
    EnlistedIndex(r, r', p, o, rep, shown);
    EnlistedOwn(r, r', p, o, rep, shown);
    EnlistedOther(r, r', p, o, rep, shown);
    EnlistedBests(r, r', p, o, rep, shown);
    RawIsOK(r', o.side);
    LevelAtRaw(r, o.side, o.price);
    hide LevelAt, Improve;
    ModelIs(r', Insert(ModelOf(r), o, shown), o.side);
  }

  lemma EnlistedBests(r: Raw, r': Raw, p: int, o: Order, rep: LevelRep, shown: int)
    requires Enlisted(r, r', p, o, rep, shown)
    ensures r'.Best(o.side) == Improve(o.side, r.Best(o.side), o.price)
    ensures r'.Best(o.side.Opposite()) == r.Best(o.side.Opposite()) && r'.scans == r.scans
  {
  }

  // ---------------------------------------------------------------- detaching

  ghost predicate BestAfterDetach(h: HashOrder, r: Raw, r': Raw, s: Side, at: Tick, emptied: bool) {
    if emptied && at == r.Best(s)
    then r'.Best(s) == Scan(s, h(r.scans, r'.On(s).Keys)) && r'.scans == r.scans + 1
    else r'.Best(s) == r.Best(s) && r'.scans == r.scans
  }

  /** Slot p left its list, which was dropped if that emptied it. */
  ghost predicate Detached(h: HashOrder, r: Raw, r': Raw, p: int, rep: LevelRep) {
    && LiveAt(r.mem, p)
    && var o := OrderAt(r.mem, p);
    var nodes := NodesAt(r, o.side, o.price);
    && p in nodes
    && Relinked(r.mem, r'.mem, nodes)
    && RepValid(r'.mem, rep)
    && rep.nodes == Without(nodes, p)
    && rep.total == TotalAt(r, o.side, o.price) - o.Remaining()
    && r'.index == r.index
    && r'.On(o.side) == (if rep.nodes == [] then r.On(o.side) - {o.price} else r.On(o.side)[o.price := rep])
    && BestAfterDetach(h, r, r', o.side, o.price, rep.nodes == [])
    && OtherSideSame(r, r', o.side)
  }

  lemma QueuedOnlyAt(r: Raw, p: int)
    requires RawOK(r) && LiveAt(r.mem, p)
    ensures OnlyAt(r, OrderAt(r.mem, p).side, OrderAt(r.mem, p).price, p)
  {
    forall t, q | p in NodesAt(r, t, q)
      ensures t == OrderAt(r.mem, p).side && q == OrderAt(r.mem, p).price
    {
      NodesAtOK(r, t, q, p);
    }
  }

  lemma DetachedConfined(r: Raw, mem': Memory, s: Side, at: Tick, p: int)
    requires Relinked(r.mem, mem', NodesAt(r, s, at))
    ensures Confined(r, mem', s, at, p)
    ensures LiveAt(mem', p) == LiveAt(r.mem, p) && OrderAt(mem', p) == OrderAt(r.mem, p)
  {
    RelinkedSameObjects(r.mem, mem', NodesAt(r, s, at), p);
  }

  lemma DetachedRepOK(h: HashOrder, r: Raw, r': Raw, p: int, rep: LevelRep)
    requires RawOK(r) && Detached(h, r, r', p, rep)
    ensures var o := OrderAt(r.mem, p);
      && (rep.nodes != [] ==> RepOK(r'.mem, o.side, o.price, rep))
      && Ids(r'.mem, rep.nodes) == Without(Ids(r.mem, NodesAt(r, o.side, o.price)), o.id)
  {
    var o := OrderAt(r.mem, p);
    DetachedPlaces(h, r, r', p, rep);
    assert RepOK(r.mem, o.side, o.price, r.On(o.side)[o.price]);
    assert forall k :: OrderAt(r'.mem, k) == OrderAt(r.mem, k) by {
      RelinkedSameObjects(r.mem, r'.mem, NodesAt(r, o.side, o.price), p);
    }
    hide RepOK, IndexOK, Relinked;
    IdsWithout(r.mem, r.index, o.side, o.price, r.On(o.side)[o.price], p);
    assert Ids(r'.mem, rep.nodes) == Ids(r.mem, rep.nodes);
  }

  lemma DetachedPlaces(h: HashOrder, r: Raw, r': Raw, p: int, rep: LevelRep)
    requires RawOK(r) && Detached(h, r, r', p, rep)
    ensures var o := OrderAt(r.mem, p); rep.nodes != [] ==> RepOK(r'.mem, o.side, o.price, rep)
  {
    var o := OrderAt(r.mem, p);
    var nodes := NodesAt(r, o.side, o.price);
    RelinkedSameObjects(r.mem, r'.mem, nodes, p);
    hide RawOK, RepValid, Relinked, Without;
    forall i | 0 <= i < |rep.nodes|
      ensures OrderAt(r'.mem, rep.nodes[i]).side == o.side && OrderAt(r'.mem, rep.nodes[i]).price == o.price
    {
      assert rep.nodes[i] in nodes by {
        KeptNode(nodes, p, rep.nodes, i);
      }
      RelinkedSameObjects(r.mem, r'.mem, nodes, rep.nodes[i]);
      NodesAtOK(r, o.side, o.price, rep.nodes[i]);
    }
  }

  lemma KeptNode(nodes: seq<int>, p: int, rest: seq<int>, i: nat)
    requires rest == Without(nodes, p) && i < |rest|
    ensures rest[i] in nodes
  {
  }

  lemma DetachedFrame(h: HashOrder, r: Raw, r': Raw, p: int, rep: LevelRep)
    requires RawOK(r) && Detached(h, r, r', p, rep)
    ensures var o := OrderAt(r.mem, p);
      && OnlyAt(r, o.side, o.price, p)
      && Confined(r, r'.mem, o.side, o.price, p)
      && LiveAt(r'.mem, p) && OrderAt(r'.mem, p) == o
      && |r'.mem| == |r.mem|
  {
    var o := OrderAt(r.mem, p);
    hide RawOK, Confined, OnlyAt, Relinked, Without, BestAfterDetach, RepValid;
    QueuedOnlyAt(r, p);
    DetachedConfined(r, r'.mem, o.side, o.price, p);
    ConfinedSize(r, r'.mem, o.side, o.price, p);
  }

  lemma ConfinedSize(r: Raw, mem': Memory, s: Side, at: Tick, p: int)
    requires Confined(r, mem', s, at, p)
    ensures |mem'| == |r.mem|
  {
  }

  lemma DetachedOther(h: HashOrder, r: Raw, r': Raw, p: int, rep: LevelRep)
    requires RawOK(r) && Detached(h, r, r', p, rep)
    ensures var t := OrderAt(r.mem, p).side.Opposite();
      SideRepOK(r'.mem, t, r'.On(t)) && LevelsOf(r'.mem, r'.On(t)) == LevelsOf(r.mem, r.On(t))
          && r'.Best(t) == r.Best(t)
  {
    var o := OrderAt(r.mem, p);
    assert OtherSideSame(r, r', o.side) by {
      hide OtherSideSame;
    }
    hide RawOK, Detached, Confined, OnlyAt, SideRepOK, LevelsOf;
    DetachedFrame(h, r, r', p, rep);
    OtherSideKept(r, r'.mem, o.side, o.price, p);
  }

  lemma DetachedOwn(h: HashOrder, r: Raw, r': Raw, p: int, rep: LevelRep)
    requires RawOK(r) && Detached(h, r, r', p, rep)
    ensures var s := OrderAt(r.mem, p).side; SideRepOK(r'.mem, s, r'.On(s))
    ensures var o := OrderAt(r.mem, p);
      LevelsOf(r'.mem, r'.On(o.side))
      == (if rep.nodes == [] then LevelsOf(r.mem, r.On(o.side)) - {o.price}
          else LevelsOf(r.mem, r.On(o.side))[o.price := Level(Ids(r'.mem, rep.nodes), rep.total)])
  {
    var o := OrderAt(r.mem, p);
    assert r'.On(o.side) == (if rep.nodes == [] then r.On(o.side) - {o.price} else r.On(o.side)[o.price := rep]);
    hide RawOK, Detached, Confined, OnlyAt, SideRepOK, LevelsOf, RepOK, Ids, Without;
    DetachedFrame(h, r, r', p, rep);
    DetachedRepOK(h, r, r', p, rep);
    if rep.nodes != [] {
      OwnSideKept(r, r'.mem, o.side, o.price, p, rep);
    } else {
      OwnSideDropped(r, r'.mem, o.side, o.price, p);
    }
  }

  lemma DetachedIndex(h: HashOrder, r: Raw, r': Raw, p: int, rep: LevelRep)
    requires RawOK(r) && Detached(h, r, r', p, rep)
    ensures IndexOK(r'.mem, r'.index) && OrdersOf(r'.mem, r'.index) == OrdersOf(r.mem, r.index)
  {
    assert r'.index == r.index && LiveAt(r.mem, p);
    assert IndexOK(r.mem, r.index) by {
      hide IndexOK;
    }
    hide RawOK, Detached, Confined, OnlyAt, IndexOK, OrdersOf;
    DetachedFrame(h, r, r', p, rep);
    SameOrders(r, r', p);
  }

  lemma LevelsLookup(r: Raw, s: Side, p: Tick)
    ensures p in r.On(s) <==> p in LevelsOf(r.mem, r.On(s))
    ensures p in r.On(s) ==> LevelsOf(r.mem, r.On(s))[p] == Level(Ids(r.mem, NodesAt(r, s, p)), TotalAt(r, s, p))
  {
  }

  lemma IdsLength(mem: Memory, nodes: seq<int>)
    ensures Ids(mem, nodes) == [] <==> nodes == []
  {
  }

  lemma SameOrders(r: Raw, r': Raw, p: int)
    requires IndexOK(r.mem, r.index) && r'.index == r.index
        && Confined(r, r'.mem, OrderAt(r.mem, p).side, OrderAt(r.mem, p).price, p)
    requires LiveAt(r.mem, p) && LiveAt(r'.mem, p) && OrderAt(r'.mem, p) == OrderAt(r.mem, p)
    ensures IndexOK(r'.mem, r'.index) && OrdersOf(r'.mem, r'.index) == OrdersOf(r.mem, r.index)
  {
    IndexKept(r.mem, r'.mem, r.index, p);
  }

  lemma LevelKeys(mem: Memory, reps: map<Tick, LevelRep>)
    ensures LevelsOf(mem, reps).Keys == reps.Keys
  {
  }

  lemma DetachedQueue(h: HashOrder, r: Raw, r': Raw, p: int, rep: LevelRep)
    requires RawOK(r) && Detached(h, r, r', p, rep)
    ensures var o := OrderAt(r.mem, p); var l := LevelsOf(r.mem, r.On(o.side));
      && o.price in l
      && Ids(r'.mem, rep.nodes) == Without(l[o.price].queue, o.id)
      && (rep.nodes == [] <==> Without(l[o.price].queue, o.id) == [])
      && rep.total == l[o.price].total - o.Remaining()
      && BestAfterDetach(h, r, r', o.side, o.price, rep.nodes == [])
      && r'.On(o.side).Keys == LevelsOf(r'.mem, r'.On(o.side)).Keys
  {
    var o := OrderAt(r.mem, p);
    assert o.price in r.On(o.side) && rep.total == TotalAt(r, o.side, o.price) - o.Remaining()
        && BestAfterDetach(h, r, r', o.side, o.price, rep.nodes == []) by {
      hide BestAfterDetach, RawOK;
    }
    hide RawOK, Detached, LevelsOf, Ids, Without, BestAfterDetach, RepOK;
    DetachedRepOK(h, r, r', p, rep);
    LevelsLookup(r, o.side, o.price);
    IdsLength(r'.mem, rep.nodes);
    LevelKeys(r'.mem, r'.On(o.side));
  }

  lemma DetachedRawOK(h: HashOrder, r: Raw, r': Raw, p: int, rep: LevelRep)
    requires RawOK(r) && Detached(h, r, r', p, rep)
    ensures RawOK(r')
  {
    hide RawOK, Detached, IndexOK, SideRepOK, OrdersOf, LevelsOf, Ids;
    DetachedIndex(h, r, r', p, rep);
    DetachedOwn(h, r, r', p, rep);
    DetachedOther(h, r, r', p, rep);
    RawIsOK(r', OrderAt(r.mem, p).side);
  }

  lemma DetachedBookRest(h: HashOrder, r: Raw, r': Raw, p: int, rep: LevelRep)
    requires RawOK(r) && Detached(h, r, r', p, rep)
    ensures DetachedRest(ModelOf(r), OrderAt(r.mem, p), ModelOf(r'))
  {
    assert LiveAt(r.mem, p);
    hide RawOK, Detached, IndexOK, SideRepOK, OrdersOf, LevelsOf, OnlyAt, Confined;
    IndexLookup(r, p);
    DetachedFrame(h, r, r', p, rep);
    DetachedIndex(h, r, r', p, rep);
    DetachedOther(h, r, r', p, rep);
  }

  lemma DetachedBookOwn(h: HashOrder, r: Raw, r': Raw, p: int, rep: LevelRep)
    requires RawOK(r) && Detached(h, r, r', p, rep)
    ensures var s := OrderAt(r.mem, p).side;
      DetachedOwnTo(h, ModelOf(r).On(s), r.scans, OrderAt(r.mem, p), ModelOf(r').On(s), r'.scans)
  {
    var o := OrderAt(r.mem, p);
    hide RawOK, Detached, IndexOK, SideRepOK, OrdersOf, LevelsOf, Ids, Without, Scan;
    DetachedQueue(h, r, r', p, rep);
    DetachedOwn(h, r, r', p, rep);
    OwnParts(h, Ladder(LevelsOf(r.mem, r.On(o.side)), r.Best(o.side)), r.scans, o,
      Ladder(LevelsOf(r'.mem, r'.On(o.side)), r'.Best(o.side)), r'.scans, Ids(r'.mem, rep.nodes), rep.total,
          rep.nodes == [], r'.On(o.side).Keys);
  }

  lemma OwnParts(h: HashOrder, l: Ladder, n: nat, o: Order, l': Ladder, n': nat, queue: seq<OrderId>, total: int,
      emptied: bool, keys: set<Tick>)
    requires o.price in l.levels && queue == Without(l.levels[o.price].queue, o.id) && (emptied <==> queue == [])
    requires total == l.levels[o.price].total - o.Remaining() && keys == l'.levels.Keys
    requires l'.levels == (if emptied then l.levels - {o.price} else l.levels[o.price := Level(queue, total)])
    requires if emptied && o.price == l.best then l'.best == Scan(o.side, h(n, keys)) && n' == n + 1
             else l'.best == l.best && n' == n
    ensures DetachedOwnTo(h, l, n, o, l', n')
  {
  }

  /** remove_order_from_level on raw states is Detach on books. */
  lemma DetachedModel(h: HashOrder, r: Raw, r': Raw, p: int, rep: LevelRep)
    requires RawOK(r) && Detached(h, r, r', p, rep)
    ensures RawOK(r')
    ensures OrderAt(r.mem, p).id in ModelOf(r).orders
    ensures ModelOf(r') == Detach(h, ModelOf(r), OrderAt(r.mem, p).id)
  {
    assert ModelOf(r).scans == r.scans && ModelOf(r').scans == r'.scans;
    hide RawOK, Detached, ModelOf, DetachedOwnTo, OrderAt;
    DetachedRawOK(h, r, r', p, rep);
    DetachedBookOwn(h, r, r', p, rep);
    DetachedBookRest(h, r, r', p, rep);
    DetachLadder(h, ModelOf(r), OrderAt(r.mem, p), ModelOf(r'));
  }

  lemma IndexLookup(r: Raw, p: int)
    requires RawOK(r) && LiveAt(r.mem, p)
    ensures var o := OrderAt(r.mem, p); o.id in ModelOf(r).orders && ModelOf(r).orders[o.id] == o
    ensures var o := OrderAt(r.mem, p); o.id in r.index && r.index[o.id] == p
  {
  }

  /** What Detach does to the side of the order, and what it leaves alone. */
  ghost predicate DetachedOwnTo(h: HashOrder, l: Ladder, n: nat, o: Order, l': Ladder, n': nat) {
    && o.price in l.levels
    && var queue := Without(l.levels[o.price].queue, o.id);
    && l'.levels == (if queue == [] then l.levels - {o.price}
                     else l.levels[o.price := Level(queue, l.levels[o.price].total - o.Remaining())])
    && (if queue == [] && o.price == l.best then l'.best == Scan(o.side, h(n, l'.levels.Keys)) && n' == n + 1
        else l'.best == l.best && n' == n)
  }

  ghost predicate DetachedRest(b: Book, o: Order, b': Book) {
    && o.id in b.orders && b.orders[o.id] == o
    && b'.orders == b.orders && b'.capacity == b.capacity
    && b'.On(o.side.Opposite()) == b.On(o.side.Opposite())
  }

  lemma DetachLadder(h: HashOrder, b: Book, o: Order, b': Book)
    requires DetachedRest(b, o, b') && DetachedOwnTo(h, b.On(o.side), b.scans, o, b'.On(o.side), b'.scans)
    ensures o.id in b.orders && b' == Detach(h, b, o.id)
  {
  }

  // ---------------------------------------------------------------- releasing

  /** Slot p, queued nowhere, was given back and its id forgotten. */
  ghost predicate Released(r: Raw, r': Raw, p: int) {
    && LiveAt(r.mem, p)
    && var o := OrderAt(r.mem, p);
    && p !in NodesAt(r, o.side, o.price)
    && |r'.mem| == |r.mem| && !LiveAt(r'.mem, p)
    && (forall k :: 0 <= k < |r.mem| && k != p ==> r'.mem[k] == r.mem[k])
    && r' == r.(mem := r'.mem, index := r.index - {o.id})
  }

  lemma ReleasedSide(r: Raw, r': Raw, p: int, s: Side)
    requires RawOK(r) && Released(r, r', p)
    ensures SideRepOK(r'.mem, s, r.On(s)) && LevelsOf(r'.mem, r.On(s)) == LevelsOf(r.mem, r.On(s))
  {
    assert SideRepOK(r.mem, s, r.On(s));
    forall q | q in r.On(s)
      ensures RepOK(r'.mem, s, q, r.On(s)[q]) && Ids(r'.mem, r.On(s)[q].nodes) == Ids(r.mem, r.On(s)[q].nodes)
    {
      assert p !in r.On(s)[q].nodes by {
        if p in NodesAt(r, s, q) {
          NodesAtOK(r, s, q, p);
        }
      }
      UntouchedRepOK(r.mem, r'.mem, s, q, r.On(s)[q]);
      SameIds(r.mem, r'.mem, p, r.On(s)[q].nodes);
    }
  }

  lemma ReleasedModel(r: Raw, r': Raw, p: int)
    requires RawOK(r) && Released(r, r', p)
    ensures RawOK(r')
    ensures ModelOf(r') == ModelOf(r).(orders := ModelOf(r).orders - {OrderAt(r.mem, p).id})
  {
    ReleasedSide(r, r', p, Bid);
    ReleasedSide(r, r', p, Ask);
    hide SideRepOK, LevelsOf;
    IndexRemoved(r.mem, r'.mem, r.index, p);
  }

  // ---------------------------------------------------------------- rewriting in place

  /** The order in slot p became o, with the same id, side and price, and the same links. */
  ghost predicate Rewritten(r: Raw, r': Raw, p: int, o: Order) {
    && LiveAt(r.mem, p)
    && var before := OrderAt(r.mem, p);
    && o.id == before.id && o.side == before.side && o.price == before.price
    && r' == r.(mem := r.mem[p := Live(r.mem[p].obj.(o := o))])
  }

  lemma RewrittenSide(r: Raw, r': Raw, p: int, o: Order, s: Side)
    requires RawOK(r) && Rewritten(r, r', p, o)
    ensures SideRepOK(r'.mem, s, r.On(s)) && LevelsOf(r'.mem, r.On(s)) == LevelsOf(r.mem, r.On(s))
  {
    assert SideRepOK(r.mem, s, r.On(s));
    forall q | q in r.On(s)
      ensures RepOK(r'.mem, s, q, r.On(s)[q]) && Ids(r'.mem, r.On(s)[q].nodes) == Ids(r.mem, r.On(s)[q].nodes)
    {
      assert RepOK(r.mem, s, q, r.On(s)[q]);
      LinkedUpdate(r.mem, r.On(s)[q].nodes, p, o);
    }
  }

  lemma RewrittenModel(r: Raw, r': Raw, p: int, o: Order)
    requires RawOK(r) && Rewritten(r, r', p, o)
    ensures RawOK(r') && LiveAt(r'.mem, p) && OrderAt(r'.mem, p) == o
    ensures ModelOf(r') == ModelOf(r).(orders := ModelOf(r).orders[o.id := o])
  {
    RewrittenSide(r, r', p, o, Bid);
    RewrittenSide(r, r', p, o, Ask);
    hide SideRepOK, LevelsOf;
    IndexKept(r.mem, r'.mem, r.index, p);
  }

  // ---------------------------------------------------------------- totals

  /** The total of one level moved. */
  ghost predicate Retotalled(r: Raw, r': Raw, s: Side, at: Tick, q: int) {
    && r'.mem == r.mem && r'.index == r.index && r'.scans == r.scans && r'.Best(s) == r.Best(s)
    && OtherSideSame(r, r', s)
    && r'.On(s) == if at in r.On(s) then r.On(s)[at := r.On(s)[at].(total := r.On(s)[at].total - q)] else r.On(s)
  }

  lemma RetotalledModel(r: Raw, r': Raw, s: Side, at: Tick, q: int)
    requires RawOK(r) && Retotalled(r, r', s, at, q)
    ensures RawOK(r') && ModelOf(r') == ModelOf(r).With(s, Reduced(ModelOf(r).On(s), at, q))
  {
    hide SideRepOK, IndexOK, LevelsOf, Reduced, OrdersOf;
    RetotalledSide(r, r', s, at, q);
    RawIsOK(r', s);
    hide RawOK;
    RetotalledLevels(r.mem, r.On(s), r'.On(s), at, q, r.Best(s));
    ModelIs(r', ModelOf(r).With(s, Reduced(ModelOf(r).On(s), at, q)), s);
  }

  lemma RetotalledSide(r: Raw, r': Raw, s: Side, at: Tick, q: int)
    requires RawOK(r) && Retotalled(r, r', s, at, q)
    ensures SideRepOK(r'.mem, s, r'.On(s))
  {
    assert SideRepOK(r.mem, s, r.On(s));
    forall p | p in r'.On(s)
      ensures RepOK(r.mem, s, p, r'.On(s)[p])
    {
      assert RepOK(r.mem, s, p, r.On(s)[p]);
    }
  }

  lemma RetotalledLevels(mem: Memory, reps: map<Tick, LevelRep>, reps': map<Tick, LevelRep>, at: Tick, q: int,
      best: Tick)
    requires reps' == if at in reps then reps[at := reps[at].(total := reps[at].total - q)] else reps
    ensures Ladder(LevelsOf(mem, reps'), best) == Reduced(Ladder(LevelsOf(mem, reps), best), at, q)
  {
  }
}
