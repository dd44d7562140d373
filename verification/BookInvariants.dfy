/** Every operation of the book keeps the ownership partition, and says what it does to the caches. */
module BookInvariants {
  import opened Types
  import opened Queues
  import opened LimitOrderBook

  lemma EmptyWF(capacity: nat)
    ensures WF(EmptyBook(capacity))
    ensures CacheOK(Bid, EmptyBook(capacity).bids) && CacheOK(Ask, EmptyBook(capacity).asks)
  {
  }

  // ---------------------------------------------------------------- insertion

  lemma PushedOK(s: Side, l: Ladder, orders: map<OrderId, Order>, o: Order, shown: int)
    requires SideOK(s, l, orders) && o.side == s && o.id !in orders
    ensures SideOK(s, Pushed(s, l, o.id, o.price, shown), orders[o.id := o])
  {
    var l' := Pushed(s, l, o.id, o.price, shown);
    var orders' := orders[o.id := o];
    forall p | p in l'.levels
      ensures LevelOK(s, p, l'.levels[p].queue, orders')
    {
      if p in l.levels {
        assert LevelOK(s, p, l.levels[p].queue, orders);
        assert o.id !in l.levels[p].queue;
      }
    }
    forall id | id in orders' && orders'[id].side == s
      ensures Queued(l', orders'[id].price, id)
    {
      if id != o.id {
        assert Queued(l, orders[id].price, id);
      }
    }
  }

  lemma InsertOtherSideOK(s: Side, l: Ladder, orders: map<OrderId, Order>, o: Order)
    requires SideOK(s, l, orders) && o.id !in orders && o.side != s
    ensures SideOK(s, l, orders[o.id := o])
  {
    var orders' := orders[o.id := o];
    forall p | p in l.levels
      ensures LevelOK(s, p, l.levels[p].queue, orders')
    {
      assert LevelOK(s, p, l.levels[p].queue, orders);
    }
  }

  lemma InsertFrame(b: Book, o: Order, shown: int)
    ensures var b' := Insert(b, o, shown);
      && b'.orders == b.orders[o.id := o]
      && b'.On(o.side) == Pushed(o.side, b.On(o.side), o.id, o.price, shown)
      && b'.On(o.side.Opposite()) == b.On(o.side.Opposite())
  {
  }

  lemma WFBySides(b: Book, s: Side)
    requires SideOK(s, b.On(s), b.orders) && SideOK(s.Opposite(), b.On(s.Opposite()), b.orders)
    requires OrdersOK(b.orders) && |b.orders| <= b.capacity
    ensures WF(b)
  {
  }

  lemma AdmittedOrders(b: Book, o: Order)
    requires WF(b) && Admits(b, o.id) && OrderOK(o)
    ensures OrdersOK(b.orders[o.id := o]) && |b.orders[o.id := o]| == |b.orders| + 1
    ensures SideOK(o.side, b.On(o.side), b.orders) && SideOK(o.side.Opposite(), b.On(o.side.Opposite()), b.orders)
  {
    hide SideOK;
  }

  lemma InsertWF(b: Book, o: Order, shown: int)
    requires WF(b) && Admits(b, o.id) && OrderOK(o)
    ensures WF(Insert(b, o, shown))
  {
    AdmittedOrders(b, o);
    InsertFrame(b, o, shown);
    hide SideOK, Pushed, OrdersOK, Insert, WF;
    PushedOK(o.side, b.On(o.side), b.orders, o, shown);
    InsertOtherSideOK(o.side.Opposite(), b.On(o.side.Opposite()), b.orders, o);
    WFBySides(Insert(b, o, shown), o.side);
  }

  /** Where the cache was right and the new price is a real one, it stays right. */
  lemma PushedCacheOK(s: Side, l: Ladder, id: OrderId, p: Tick, shown: int)
    requires CacheOK(s, l) && p != INVALID_PRICE
    ensures CacheOK(s, Pushed(s, l, id, p, shown))
  {
    var l' := Pushed(s, l, id, p, shown);
    assert p in l'.levels;
  }

  // ---------------------------------------------------------------- removal

  lemma UnqueuedLevelsOK(h: HashOrder, n: nat, s: Side, l: Ladder, orders: map<OrderId, Order>, id: OrderId, rem: int)
    requires SideOK(s, l, orders) && id in orders && orders[id].side == s
    ensures var l' := Unqueued(h, n, s, l, id, orders[id].price, rem);
            forall p :: p in l'.levels ==> p in l.levels && LevelOK(s, p, l'.levels[p].queue, orders - {id})
  {
    var at := orders[id].price;
    var l' := Unqueued(h, n, s, l, id, at, rem);
    assert Queued(l, at, id);
    forall p | p in l'.levels
      ensures p in l.levels && LevelOK(s, p, l'.levels[p].queue, orders - {id})
    {
      assert LevelOK(s, p, l.levels[p].queue, orders);
      if p == at {
        NoDupWithout(l.levels[p].queue, id);
      } else {
        assert id !in l.levels[p].queue;
      }
    }
  }

  lemma UnqueuedOK(h: HashOrder, n: nat, s: Side, l: Ladder, orders: map<OrderId, Order>, id: OrderId, rem: int)
    requires SideOK(s, l, orders) && id in orders && orders[id].side == s
    ensures SideOK(s, Unqueued(h, n, s, l, id, orders[id].price, rem), orders - {id})
  {
    var at := orders[id].price;
    var l' := Unqueued(h, n, s, l, id, at, rem);
    UnqueuedLevelsOK(h, n, s, l, orders, id, rem);
    forall x | x in orders - {id} && orders[x].side == s
      ensures Queued(l', orders[x].price, x)
    {
      assert Queued(l, orders[x].price, x);
    }
    RescanOK(h, n, s, l.levels - {at});
  }

  lemma RemoveOtherSideOK(s: Side, l: Ladder, orders: map<OrderId, Order>, id: OrderId)
    requires SideOK(s, l, orders) && id in orders && orders[id].side != s
    ensures SideOK(s, l, orders - {id})
  {
    forall p | p in l.levels
      ensures LevelOK(s, p, l.levels[p].queue, orders - {id})
    {
      assert LevelOK(s, p, l.levels[p].queue, orders);
      assert id !in l.levels[p].queue;
    }
  }

  /** Removal touches nothing but the order itself and its own side. */
  lemma RemoveFrame(h: HashOrder, b: Book, id: OrderId)
    requires id in b.orders
    ensures var o, b' := b.orders[id], Remove(h, b, id);
      && b'.orders == b.orders - {id}
      && b'.On(o.side) == Unqueued(h, b.scans, o.side, b.On(o.side), id, o.price, o.Remaining())
      && b'.On(o.side.Opposite()) == b.On(o.side.Opposite())
      && b'.capacity == b.capacity
  {
  }

  lemma RemoveWF(h: HashOrder, b: Book, id: OrderId)
    requires WF(b) && id in b.orders
    ensures WF(Remove(h, b, id))
    ensures |Remove(h, b, id).orders| == |b.orders| - 1
  {
    var o := b.orders[id];
    UnqueuedOK(h, b.scans, o.side, b.On(o.side), b.orders, id, o.Remaining());
    RemoveOtherSideOK(o.side.Opposite(), b.On(o.side.Opposite()), b.orders, id);
    assert b.orders.Keys == (b.orders - {id}).Keys + {id};
  }

  lemma UnqueuedOnlyDrops(h: HashOrder, n: nat, s: Side, l: Ladder, id: OrderId, p: Tick, rem: int)
    ensures Unqueued(h, n, s, l, id, p, rem).levels.Keys <= l.levels.Keys
  {
  }

  /** Removing an order never spoils a right cache, whatever order the rescan visits prices in. */
  lemma UnqueuedCacheOK(h: HashOrder, n: nat, s: Side, l: Ladder, id: OrderId, p: Tick, rem: int)
    requires CacheOK(s, l)
    ensures CacheOK(s, Unqueued(h, n, s, l, id, p, rem))
  {
    var l' := Unqueued(h, n, s, l, id, p, rem);
    RescanOK(h, n, s, l.levels - {p});
    if p in l.levels && Without(l.levels[p].queue, id) == [] && p != l.best {
      assert l.best in l'.levels;
    }
  }

  // ---------------------------------------------------------------- changes in place

  /** Same queues at the same prices: only totals may differ. */
  ghost predicate SameQueues(l: Ladder, l': Ladder) {
    && l'.best == l.best
    && (forall p :: p in l'.levels <==> p in l.levels)
    && (forall p :: p in l.levels ==> l'.levels[p].queue == l.levels[p].queue)
  }

  /** Same orders, up to their quantities. */
  ghost predicate SameOrders(orders: map<OrderId, Order>, orders': map<OrderId, Order>) {
    && orders'.Keys == orders.Keys
    && (forall x :: x in orders ==> orders'[x] == orders[x].(qty := orders'[x].qty, filled := orders'[x].filled))
  }

  lemma InPlaceSideOK(s: Side, l: Ladder, l': Ladder, orders: map<OrderId, Order>, orders': map<OrderId, Order>)
    requires SideOK(s, l, orders) && SameQueues(l, l') && SameOrders(orders, orders')
    ensures SideOK(s, l', orders')
  {
    forall p | p in l'.levels
      ensures LevelOK(s, p, l'.levels[p].queue, orders')
    {
      assert LevelOK(s, p, l.levels[p].queue, orders);
    }
    forall x | x in orders' && orders'[x].side == s
      ensures Queued(l', orders'[x].price, x)
    {
      assert x in orders.Keys;
      assert Queued(l, orders[x].price, x);
    }
  }

  lemma InPlaceWF(b: Book, b': Book)
    requires WF(b)
    requires SameQueues(b.bids, b'.bids) && SameQueues(b.asks, b'.asks) && b'.capacity == b.capacity
    requires SameOrders(b.orders, b'.orders) && OrdersOK(b'.orders)
    ensures WF(b')
  {
    InPlaceSideOK(Bid, b.bids, b'.bids, b.orders, b'.orders);
    InPlaceSideOK(Ask, b.asks, b'.asks, b.orders, b'.orders);
    assert |b'.orders.Keys| == |b.orders.Keys|;
  }

  lemma SameQueuesCacheOK(s: Side, l: Ladder, l': Ladder)
    requires SameQueues(l, l') && CacheOK(s, l)
    ensures CacheOK(s, l')
  {
    if l'.levels != map[] {
      var p :| p in l'.levels;
    }
    if l.levels != map[] {
      var p :| p in l.levels;
    }
  }

  ghost predicate CanTrade(b: Book, maker: OrderId, taker: OrderId, q: int) {
    && maker in b.orders && taker in b.orders
    && b.orders[maker].side != b.orders[taker].side
    && 0 <= q <= b.orders[maker].Remaining()
    && q <= b.orders[taker].Remaining()
  }

  lemma TradeLadders(b: Book, maker: OrderId, taker: OrderId, q: int)
    requires CanTrade(b, maker, taker, q)
    ensures var m, t, b' := b.orders[maker], b.orders[taker], Trade(b, maker, taker, q);
      && b'.On(m.side) == Reduced(b.On(m.side), m.price, q)
      && b'.On(t.side) == Reduced(b.On(t.side), t.price, q)
      && SameQueues(b.bids, b'.bids)
      && SameQueues(b.asks, b'.asks)
  {
  }

  lemma TradeOrders(b: Book, maker: OrderId, taker: OrderId, q: int)
    requires OrdersOK(b.orders) && CanTrade(b, maker, taker, q)
    ensures var orders := Trade(b, maker, taker, q).orders;
      && OrdersOK(orders)
      && SameOrders(b.orders, orders)
      && orders[maker] == Filled(b.orders[maker], q)
      && orders[taker] == Filled(b.orders[taker], q)
      && (forall x :: x in b.orders && x != maker && x != taker ==> orders[x] == b.orders[x])
  {
  }

  lemma TradeWF(b: Book, maker: OrderId, taker: OrderId, q: int)
    requires WF(b) && CanTrade(b, maker, taker, q)
    ensures WF(Trade(b, maker, taker, q))
  {
    TradeLadders(b, maker, taker, q);
    TradeOrders(b, maker, taker, q);
    InPlaceWF(b, Trade(b, maker, taker, q));
  }

  /** A same-price modify changes no queue: every order, this one included, keeps its position. */
  lemma ModifyDownInPlace(b: Book, id: OrderId, qty: int)
    requires OrdersOK(b.orders) && ModifyAllowed(b, id, qty)
    ensures var b' := ModifyDown(b, id, qty);
      && OrdersOK(b'.orders)
      && SameOrders(b.orders, b'.orders)
      && b'.orders[id].Remaining() == qty
      && b'.On(b.orders[id].side) == Reduced(b.On(b.orders[id].side), b.orders[id].price,
          b.orders[id].Remaining() - qty)
      && b'.On(b.orders[id].side.Opposite()) == b.On(b.orders[id].side.Opposite())
      && (forall x :: x in b.orders && x != id ==> b'.orders[x] == b.orders[x])
      && SameQueues(b.bids, b'.bids)
      && SameQueues(b.asks, b'.asks)
  {
  }

  lemma ModifyDownWF(b: Book, id: OrderId, qty: int)
    requires WF(b) && ModifyAllowed(b, id, qty)
    ensures WF(ModifyDown(b, id, qty))
  {
    ModifyDownInPlace(b, id, qty);
    InPlaceWF(b, ModifyDown(b, id, qty));
  }

  // ---------------------------------------------------------------- whole operations

  lemma CancelWF(h: HashOrder, b: Book, id: OrderId)
    requires WF(b)
    ensures WF(Cancel(h, b, id))
  {
    if id in b.orders {
      RemoveWF(h, b, id);
    }
  }

  /** The order a price-changing modify puts back. */
  function Repriced(o: Order, p: Tick, qty: int): Order {
    if o.kind.Iceberg? then IcebergOrder(o.id, o.side, p, qty, o.display, o.ts)
    else LimitOrder(o.id, o.side, p, qty, o.ts)
  }

  function ShownQty(o: Order): int {
    if o.kind.Iceberg? then o.display else o.qty
  }

  lemma IdMatches(b: Book, id: OrderId)
    requires WF(b) && id in b.orders
    ensures b.orders[id].id == id
  {
  }

  /** A price change cannot lose the order, not even with an exhausted pool: the slot that was just
      given back takes the re-added order. */
  lemma RepriceIsRemoveThenInsert(h: HashOrder, b: Book, id: OrderId, p: Tick, qty: int)
    requires WF(b) && ModifyAllowed(b, id, qty) && p != b.orders[id].price
    ensures Admits(Remove(h, b, id), id)
    ensures var o := Repriced(b.orders[id], p, qty);
            Modify(h, b, id, p, qty) == Insert(Remove(h, b, id), o, ShownQty(o))
  {
    RemoveWF(h, b, id);
  }

  lemma ModifyWF(h: HashOrder, b: Book, id: OrderId, p: Tick, qty: int)
    requires WF(b)
    ensures WF(Modify(h, b, id, p, qty))
  {
    if ModifyAllowed(b, id, qty) {
      if p != b.orders[id].price {
        RepriceIsRemoveThenInsert(h, b, id, p, qty);
        RemoveWF(h, b, id);
        var o := Repriced(b.orders[id], p, qty);
        InsertWF(Remove(h, b, id), o, ShownQty(o));
      } else {
        ModifyDownWF(b, id, qty);
      }
    }
  }
}
