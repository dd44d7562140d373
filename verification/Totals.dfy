/** The total a price level keeps incrementally is the sum of what its orders have left, less what was
    hidden when icebergs were pushed there: at every step of every command, and exactly the sum as long
    as only whole quantities are pushed. */
module Totals {
  import opened Types
  import opened Queues
  import opened LimitOrderBook
  import opened BookInvariants
  import opened Matching
  import opened Settlement

  function RemIn(orders: map<OrderId, Order>, x: OrderId): int {
    if x in orders then orders[x].Remaining() else 0
  }

  function QueueSum(orders: map<OrderId, Order>, queue: seq<OrderId>): int {
    if queue == [] then 0 else RemIn(orders, queue[0]) + QueueSum(orders, queue[1..])
  }

  ghost predicate LadderExact(l: Ladder, orders: map<OrderId, Order>) {
    forall p :: p in l.levels ==> l.levels[p].total == QueueSum(orders, l.levels[p].queue)
  }

  ghost predicate Exact(b: Book) {
    LadderExact(b.bids, b.orders) && LadderExact(b.asks, b.orders)
  }

  /** By how much the total at price p falls short of what rests there. */
  function Drift(l: Ladder, orders: map<OrderId, Order>, p: Tick): int {
    if p in l.levels then QueueSum(orders, l.levels[p].queue) - l.levels[p].total else 0
  }

  function Off(b: Book, s: Side, p: Tick): int {
    Drift(b.On(s), b.orders, p)
  }

  lemma ExactIff(b: Book)
    ensures Exact(b) <==> forall s, p :: Off(b, s, p) == 0
  {
    if forall s, p :: Off(b, s, p) == 0 {
      forall p | p in b.bids.levels
        ensures b.bids.levels[p].total == QueueSum(b.orders, b.bids.levels[p].queue)
      {
        assert Off(b, Bid, p) == 0;
      }
      forall p | p in b.asks.levels
        ensures b.asks.levels[p].total == QueueSum(b.orders, b.asks.levels[p].queue)
      {
        assert Off(b, Ask, p) == 0;
      }
    }
  }

  // ---------------------------------------------------------------- sums over queues

  lemma {:induction false} SumFrame(orders: map<OrderId, Order>, orders': map<OrderId, Order>, queue: seq<OrderId>)
    requires forall x :: x in queue ==> RemIn(orders', x) == RemIn(orders, x)
    ensures QueueSum(orders', queue) == QueueSum(orders, queue)
  {
    if queue != [] {
      assert queue[0] in queue;
      SumFrame(orders, orders', queue[1..]);
    }
  }

  lemma {:induction false} SumConcat(orders: map<OrderId, Order>, a: seq<OrderId>, b: seq<OrderId>)
    ensures QueueSum(orders, a + b) == QueueSum(orders, a) + QueueSum(orders, b)
  {
    if a == [] {
      assert a + b == b;
    } else {
      SumConcat(orders, a[1..], b);
      assert (a + b)[1..] == a[1..] + b;
    }
  }

  lemma SumSingle(orders: map<OrderId, Order>, x: OrderId)
    ensures QueueSum(orders, [x]) == RemIn(orders, x)
  {
    assert [x][1..] == [];
  }

  lemma SumWithout(orders: map<OrderId, Order>, queue: seq<OrderId>, x: OrderId)
    requires NoDup(queue) && x in queue
    ensures QueueSum(orders, Without(queue, x)) == QueueSum(orders, queue) - RemIn(orders, x)
  {
    var k :| 0 <= k < |queue| && queue[k] == x;
    WithoutAt(queue, k);
    hide NoDup, Without, QueueSum;
    var front, back := queue[..k], queue[k + 1..];
    assert queue == front + [x] + back;
    SumConcat(orders, front, back);
    SumConcat(orders, front, [x]);
    SumConcat(orders, front + [x], back);
    SumSingle(orders, x);
  }

  /** Changing what one queued order has left moves the sum by the same amount. */
  lemma SumUpdate(orders: map<OrderId, Order>, orders': map<OrderId, Order>, queue: seq<OrderId>, x: OrderId, d: int)
    requires NoDup(queue) && x in queue
    requires RemIn(orders', x) == RemIn(orders, x) - d
    requires forall y :: y in queue && y != x ==> RemIn(orders', y) == RemIn(orders, y)
    ensures QueueSum(orders', queue) == QueueSum(orders, queue) - d
  {
    SumWithout(orders, queue, x);
    SumWithout(orders', queue, x);
    NoDupWithout(queue, x);
    SumFrame(orders, orders', Without(queue, x));
  }

  // ---------------------------------------------------------------- ladders

  lemma LevelSumKept(s: Side, l: Ladder, orders: map<OrderId, Order>, orders': map<OrderId, Order>, p: Tick)
    requires SideOK(s, l, orders) && p in l.levels
    requires forall x :: x in l.levels[p].queue ==> RemIn(orders', x) == RemIn(orders, x)
    ensures QueueSum(orders', l.levels[p].queue) == QueueSum(orders, l.levels[p].queue)
  {
    SumFrame(orders, orders', l.levels[p].queue);
  }

  lemma PushedDrift(s: Side, l: Ladder, orders: map<OrderId, Order>, o: Order, shown: int, p: Tick)
    requires SideOK(s, l, orders) && o.id !in orders && o.side == s
    ensures Drift(Pushed(s, l, o.id, o.price, shown), orders[o.id := o], p)
         == Drift(l, orders, p) + if p == o.price then o.Remaining() - shown else 0
  {
    var orders' := orders[o.id := o];
    if p in l.levels {
      assert LevelOK(s, p, l.levels[p].queue, orders);
      LevelSumKept(s, l, orders, orders', p);
    }
    if p == o.price {
      SumConcat(orders', LevelAt(l, p).queue, [o.id]);
      SumSingle(orders', o.id);
    }
  }

  /** Orders that are not queued on this side do not matter to it. */
  lemma OtherSideDrift(s: Side, l: Ladder, orders: map<OrderId, Order>, orders': map<OrderId, Order>, p: Tick)
    requires SideOK(s, l, orders)
    requires forall x :: x in orders && orders[x].side == s ==> RemIn(orders', x) == RemIn(orders, x)
    ensures Drift(l, orders', p) == Drift(l, orders, p)
  {
    if p in l.levels {
      assert LevelOK(s, p, l.levels[p].queue, orders);
      LevelSumKept(s, l, orders, orders', p);
    }
  }

  lemma ReducedDrift(s: Side, l: Ladder, orders: map<OrderId, Order>, orders': map<OrderId, Order>, x: OrderId,
      d: int, p: Tick)
    requires SideOK(s, l, orders) && x in orders && orders[x].side == s
    requires RemIn(orders', x) == orders[x].Remaining() - d
    requires forall y :: y in orders && orders[y].side == s && y != x ==> RemIn(orders', y) == RemIn(orders, y)
    ensures Drift(Reduced(l, orders[x].price, d), orders', p) == Drift(l, orders, p)
  {
    assert Queued(l, orders[x].price, x);
    if p in l.levels {
      assert LevelOK(s, p, l.levels[p].queue, orders);
      if p == orders[x].price {
        SumUpdate(orders, orders', l.levels[p].queue, x, d);
      } else {
        LevelSumKept(s, l, orders, orders', p);
      }
    }
  }

  lemma UnqueuedDrift(h: HashOrder, n: nat, s: Side, l: Ladder, orders: map<OrderId, Order>, x: OrderId, p: Tick)
    requires SideOK(s, l, orders) && x in orders && orders[x].side == s
    ensures var l' := Unqueued(h, n, s, l, x, orders[x].price, orders[x].Remaining());
      Drift(l', orders - {x}, p) == if p in l'.levels then Drift(l, orders, p) else 0
  {
    var at := orders[x].price;
    var l', orders' := Unqueued(h, n, s, l, x, at, orders[x].Remaining()), orders - {x};
    assert Queued(l, at, x);
    if p in l'.levels {
      assert LevelOK(s, p, l.levels[p].queue, orders);
      if p == at {
        SumWithout(orders, l.levels[p].queue, x);
        NoDupWithout(l.levels[p].queue, x);
      }
      SumFrame(orders, orders', l'.levels[p].queue);
    }
  }

  // ---------------------------------------------------------------- operations

  /** What pushing an order hides of it: for an iceberg all but the display slice. */
  function Hidden(o: Order): int {
    o.Remaining() - ShownQty(o)
  }

  lemma InsertDrift(b: Book, o: Order, s: Side, p: Tick)
    requires WF(b) && Admits(b, o.id)
    ensures Off(Settlement.Placed(b, o), s, p) == Off(b, s, p) + if s == o.side && p == o.price then Hidden(o) else 0
  {
    if s == o.side {
      PushedDrift(s, b.On(s), b.orders, o, ShownQty(o), p);
    } else {
      OtherSideDrift(s, b.On(s), b.orders, b.orders[o.id := o], p);
    }
  }

  /** Also of a level that goes with its last order. */
  lemma RemoveDrift(h: HashOrder, b: Book, x: OrderId, s: Side, p: Tick)
    requires WF(b) && x in b.orders
    ensures var b' := Remove(h, b, x); Off(b', s, p) == if p in b'.On(s).levels then Off(b, s, p) else 0
  {
    var o := b.orders[x];
    RemoveFrame(h, b, x);
    hide Drift;
    if s == o.side {
      UnqueuedDrift(h, b.scans, s, b.On(s), b.orders, x, p);
    } else {
      OtherSideDrift(s, b.On(s), b.orders, b.orders - {x}, p);
      NoLevelNoDrift(b.On(s), b.orders, p);
    }
  }

  lemma NoLevelNoDrift(l: Ladder, orders: map<OrderId, Order>, p: Tick)
    ensures p !in l.levels ==> Drift(l, orders, p) == 0
  {
  }

  /** Also between the two updates of a fill and the removal of its maker. */
  lemma TradeDrift(b: Book, maker: OrderId, taker: OrderId, q: int, s: Side, p: Tick)
    requires WF(b) && CanTrade(b, maker, taker, q)
    ensures Off(Trade(b, maker, taker, q), s, p) == Off(b, s, p)
  {
    hide SideOK, OrdersOK, Trade, Drift;
    var m, t, b' := b.orders[maker], b.orders[taker], Trade(b, maker, taker, q);
    TradeOrders(b, maker, taker, q);
    TradeLadders(b, maker, taker, q);
    ReducedDrift(m.side, b.On(m.side), b.orders, b'.orders, maker, q, p);
    ReducedDrift(t.side, b.On(t.side), b.orders, b'.orders, taker, q, p);
  }

  lemma ModifyDownDrift(b: Book, id: OrderId, qty: int, s: Side, p: Tick)
    requires WF(b) && ModifyAllowed(b, id, qty)
    ensures Off(ModifyDown(b, id, qty), s, p) == Off(b, s, p)
  {
    hide SideOK, OrdersOK, ModifyDown, Drift;
    var o, b' := b.orders[id], ModifyDown(b, id, qty);
    ModifyDownInPlace(b, id, qty);
    if s == o.side {
      ReducedDrift(s, b.On(s), b.orders, b'.orders, id, o.Remaining() - qty, p);
    } else {
      OtherSideDrift(s, b.On(s), b.orders, b'.orders, p);
    }
  }

  lemma MatchOnceDrift(h: HashOrder, b: Book, taker: OrderId, s: Side, p: Tick)
    requires WF(b) && taker in b.orders && CanMatch(b, taker)
    ensures var b' := MatchOnce(h, b, taker);
      Off(b', s, p) == (if p in b'.On(s).levels then Off(b, s, p) else 0) && b'.On(s).levels.Keys <= b.On(s).levels.Keys
  {
    var m := MakerOf(b, taker);
    MakerRests(b, taker);
    TradedOK(b, taker);
    var b1 := Traded(b, taker);
    TradeLadders(b, m, taker, FillQty(b, taker));
    TradeDrift(b, m, taker, FillQty(b, taker), s, p);
    hide WF, Off, CanMatch, Remove, Trade, CanTrade;
    AbsentIsZero(b1, s, p);
    SameKeys(b.On(s), b1.On(s));
    if b1.orders[m].IsFilled() {
      RemoveDrift(h, b1, m, s, p);
      RemoveKeys(h, b1, m, s);
    }
  }

  lemma AbsentIsZero(b: Book, s: Side, p: Tick)
    ensures p !in b.On(s).levels ==> Off(b, s, p) == 0
  {
  }

  lemma SameKeys(l: Ladder, l': Ladder)
    requires SameQueues(l, l')
    ensures l'.levels.Keys == l.levels.Keys
  {
  }

  lemma RemoveKeys(h: HashOrder, b: Book, x: OrderId, s: Side)
    requires x in b.orders
    ensures Remove(h, b, x).On(s).levels.Keys <= b.On(s).levels.Keys
  {
    var o := b.orders[x];
    RemoveFrame(h, b, x);
    UnqueuedOnlyDrops(h, b.scans, o.side, b.On(o.side), x, o.price, o.Remaining());
    hide Remove, Unqueued;
  }

  lemma {:induction false} MatchDrift(h: HashOrder, b: Book, taker: OrderId, s: Side, p: Tick)
    requires WF(b) && taker in b.orders
    ensures var b' := Match(h, b, taker).book;
      Off(b', s, p) == (if p in b'.On(s).levels then Off(b, s, p) else 0) && b'.On(s).levels.Keys <= b.On(s).levels.Keys
    decreases b.orders[taker].Remaining() + |b.orders|
  {
    if CanMatch(b, taker) {
      MatchOnceDrift(h, b, taker, s, p);
      MatchUnfolds(h, b, taker);
      MatchOnceWF(h, b, taker);
      MatchDrift(h, MatchOnce(h, b, taker), taker, s, p);
    }
  }

  /** A new order changes the drift of the one level it is pushed to, by what it hides, even if it
      leaves again; a level that is gone has none. */
  lemma SettleDrift(h: HashOrder, b: Book, o: Order, s: Side, p: Tick)
    requires WF(b) && Admits(b, o.id) && OrderOK(o)
    ensures var b' := Settle(h, b, o).book;
      Off(b', s, p) == if p in b'.On(s).levels then Off(b, s, p)
          + (if s == o.side && p == o.price then Hidden(o) else 0) else 0
  {
    InsertDrift(b, o, s, p);
    TakerSettled(h, b, o);
    var b1 := Settlement.Placed(b, o);
    MatchDrift(h, b1, o.id, s, p);
    var m := Match(h, b1, o.id).book;
    if Leaves(m.orders[o.id]) {
      RemoveDrift(h, m, o.id, s, p);
      RemoveKeys(h, m, o.id, s);
    }
    hide WF, Off, Match, Remove, Hidden, Settlement.Placed;
  }

  /** A modify in place changes no drift; one that changes the price pushes the order anew. */
  lemma ModifyDrift(h: HashOrder, b: Book, id: OrderId, q: Tick, qty: int, s: Side, p: Tick)
    requires WF(b) && ModifyAllowed(b, id, qty)
    ensures var o, b' := b.orders[id], Modify(h, b, id, q, qty);
      Off(b', s, p) == if p in b'.On(s).levels
        then Off(b, s, p) + (if q != o.price && s == o.side && p == q then Hidden(Repriced(o, q, qty)) else 0) else 0
  {
    hide WF, Off, Modify, Hidden, Repriced;
    AbsentIsZero(b, s, p);
    if q != b.orders[id].price {
      RepriceDrift(h, b, id, q, qty, s, p);
    } else {
      SamePriceDrift(h, b, id, qty, s, p);
    }
  }

  lemma RepriceDrift(h: HashOrder, b: Book, id: OrderId, q: Tick, qty: int, s: Side, p: Tick)
    requires WF(b) && ModifyAllowed(b, id, qty) && q != b.orders[id].price
    ensures var o, b' := b.orders[id], Modify(h, b, id, q, qty);
      Off(b', s, p) == if p in b'.On(s).levels
        then Off(b, s, p) + (if s == o.side && p == q then Hidden(Repriced(o, q, qty)) else 0) else 0
  {
    hide WF, Off, Modify, Hidden, Remove, Insert;
    var o', b1 := Repriced(b.orders[id], q, qty), Remove(h, b, id);
    IdMatches(b, id);
    assert o'.side == b.orders[id].side && o'.price == q && o'.id == id;
    hide Repriced;
    RepriceIsRemoveThenInsert(h, b, id, q, qty);
    RemoveWF(h, b, id);
    RemoveDrift(h, b, id, s, p);
    OtherPriceKept(h, b, id, s, q);
    AbsentIsZero(b, s, p);
    hide ModifyAllowed;
    InsertDrift(b1, o', s, p);
    PlacedKeys(b1, o', s);
    AbsentIsZero(Insert(b1, o', ShownQty(o')), s, p);
  }

  lemma SamePriceDrift(h: HashOrder, b: Book, id: OrderId, qty: int, s: Side, p: Tick)
    requires WF(b) && ModifyAllowed(b, id, qty)
    ensures var b' := Modify(h, b, id, b.orders[id].price, qty);
      Off(b', s, p) == Off(b, s, p) && (p in b'.On(s).levels <==> p in b.On(s).levels)
  {
    ModifyDownDrift(b, id, qty, s, p);
    ModifyDownInPlace(b, id, qty);
    hide WF, Off, ModifyDown;
  }

  /** Taking an order out leaves the levels at other prices. */
  lemma OtherPriceKept(h: HashOrder, b: Book, id: OrderId, s: Side, p: Tick)
    requires id in b.orders && (s == b.orders[id].side ==> p != b.orders[id].price)
    ensures p in b.On(s).levels ==> p in Remove(h, b, id).On(s).levels
  {
    RemoveFrame(h, b, id);
  }

  lemma PlacedKeys(b: Book, o: Order, s: Side)
    ensures Insert(b, o, ShownQty(o)).On(s).levels.Keys == b.On(s).levels.Keys + if s == o.side then {o.price} else {}
  {
  }

  // ---------------------------------------------------------------- exact totals

  /** Departure from exactness: a level's total stays exact exactly when the whole remaining quantity
      is pushed. An iceberg pushes its display slice only. */
  lemma InsertExactIff(b: Book, o: Order)
    requires WF(b) && Exact(b) && Admits(b, o.id)
    ensures Exact(Settlement.Placed(b, o)) <==> ShownQty(o) == o.Remaining()
  {
    var b' := Settlement.Placed(b, o);
    ExactIff(b);
    ExactIff(b');
    forall s, p
      ensures Off(b', s, p) == if s == o.side && p == o.price then Hidden(o) else 0
    {
      InsertDrift(b, o, s, p);
    }
    hide WF, Exact, Off, Settlement.Placed;
    assert Off(b', o.side, o.price) == Hidden(o);
  }

  lemma RemoveExact(h: HashOrder, b: Book, x: OrderId)
    requires WF(b) && Exact(b) && x in b.orders
    ensures Exact(Remove(h, b, x))
  {
    ExactIff(b);
    ExactIff(Remove(h, b, x));
    hide WF, Exact, Off, Remove;
    forall s, p
      ensures Off(Remove(h, b, x), s, p) == 0
    {
      RemoveDrift(h, b, x, s, p);
    }
  }

  /** Also between the two updates of a fill and the removal of its maker. */
  lemma TradeExact(b: Book, maker: OrderId, taker: OrderId, q: int)
    requires WF(b) && Exact(b) && CanTrade(b, maker, taker, q)
    ensures Exact(Trade(b, maker, taker, q))
  {
    ExactIff(b);
    ExactIff(Trade(b, maker, taker, q));
    hide WF, Exact, Off, Trade;
    forall s, p
      ensures Off(Trade(b, maker, taker, q), s, p) == 0
    {
      TradeDrift(b, maker, taker, q, s, p);
    }
  }

  lemma SettleExact(h: HashOrder, b: Book, o: Order)
    requires WF(b) && Exact(b) && Admits(b, o.id) && OrderOK(o) && ShownQty(o) == o.Remaining()
    ensures Exact(Settle(h, b, o).book)
  {
    ExactIff(b);
    ExactIff(Settle(h, b, o).book);
    hide WF, Exact, Off, Settle, OrderOK, Admits;
    forall s, p
      ensures Off(Settle(h, b, o).book, s, p) == 0
    {
      SettleDrift(h, b, o, s, p);
    }
  }

  lemma ModifyExact(h: HashOrder, b: Book, id: OrderId, q: Tick, qty: int)
    requires WF(b) && Exact(b)
    requires id in b.orders ==> !b.orders[id].kind.Iceberg?
    ensures Exact(Modify(h, b, id, q, qty))
  {
    if ModifyAllowed(b, id, qty) {
      ExactIff(b);
      ExactIff(Modify(h, b, id, q, qty));
      hide WF, Exact, Off, Modify;
      forall s, p
        ensures Off(Modify(h, b, id, q, qty), s, p) == 0
      {
        ModifyDrift(h, b, id, q, qty, s, p);
      }
    }
  }
}
