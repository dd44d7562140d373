/** Orderly trading: caches that are right on both sides, no spent orders, and a book that is never
    crossed between commands; and the exact commands that break it. */
module Orderly {
  import opened Types
  import opened LimitOrderBook
  import opened BookInvariants
  import opened Matching
  import opened Priority
  import opened Execution
  import opened Settlement

  ghost predicate Uncrossed(b: Book) {
    forall p, q :: p in b.bids.levels && q in b.asks.levels ==> p < q
  }

  ghost predicate NoneSpent(b: Book) {
    forall x :: x in b.orders ==> b.orders[x].Remaining() > 0
  }

  ghost predicate Tidy(b: Book) {
    && WF(b)
    && CacheOK(Bid, b.bids)
    && CacheOK(Ask, b.asks)
    && NoneSpent(b)
    && Uncrossed(b)
  }

  /** With right caches, uncrossed is what a reader of the two cached prices sees. */
  lemma UncrossedIsBestBelow(b: Book)
    requires CacheOK(Bid, b.bids) && CacheOK(Ask, b.asks)
    ensures Uncrossed(b) <==>
            (b.bids.best != INVALID_PRICE && b.asks.best != INVALID_PRICE ==> b.bids.best < b.asks.best)
  {
    if b.bids.levels != map[] && b.asks.levels != map[] {
      if b.bids.best < b.asks.best {
        forall p, q | p in b.bids.levels && q in b.asks.levels
          ensures p < q
        {
          assert !Better(Bid, p, b.bids.best) && !Better(Ask, q, b.asks.best);
        }
      }
    }
  }

  /** Price p on side s would trade at once: it reaches the cached best of the other side. */
  predicate Reaches(b: Book, s: Side, p: Tick) {
    var best := b.On(s.Opposite()).best;
    best != INVALID_PRICE && if s.Bid? then p >= best else p <= best
  }

  lemma NotReachingStaysClear(b: Book, s: Side, p: Tick, q: Tick)
    requires CacheOK(s.Opposite(), b.On(s.Opposite())) && q in b.On(s.Opposite()).levels
    requires !Reaches(b, s, p)
    ensures if s.Bid? then p < q else q < p
  {
  }

  // ---------------------------------------------------------------- new orders

  /** Liquidity that would meet a new order, seen before it is submitted. */
  ghost function Facing(b: Book, o: Order): int {
    SumRem(Quotes(b.orders, Line(o.side.Opposite(), b.On(o.side.Opposite()).levels, Terms(o))))
  }

  lemma FacingIsLiquidity(b: Book, o: Order)
    requires WF(b) && Admits(b, o.id) && OrderOK(o)
    ensures o.id in Placed(b, o).orders && Liquidity(Placed(b, o), o.id) == Facing(b, o)
  {
    var s, b1 := o.side.Opposite(), Placed(b, o);
    var l := b.On(s);
    assert b1.On(s) == l && b1.orders[o.id] == o;
    assert SideOK(s, l, b.orders);
    var line := Line(s, l.levels, Terms(o));
    forall i | 0 <= i < |line|
      ensures QuoteAt(b1.orders, line[i]) == QuoteAt(b.orders, line[i])
    {
      LineIsOpposite(s, l, Terms(o), b.orders, line[i]);
    }
    assert Quotes(b1.orders, line) == Quotes(b.orders, line);
  }

  lemma {:induction false} MatchNoneSpent(h: HashOrder, b: Book, taker: OrderId)
    requires WF(b) && taker in b.orders
    requires forall x :: x in b.orders && x != taker ==> b.orders[x].Remaining() > 0
    ensures var b' := Match(h, b, taker).book;
            forall x :: x in b'.orders && x != taker ==> b'.orders[x].Remaining() > 0
    decreases b.orders[taker].Remaining() + |b.orders|
  {
    if CanMatch(b, taker) {
      var b' := MatchOnce(h, b, taker);
      MatchUnfolds(h, b, taker);
      MatchOnceWF(h, b, taker);
      forall x | x in b'.orders && x != taker
        ensures b'.orders[x].Remaining() > 0
      {
        OnceNotSpent(h, b, taker, x);
      }
      MatchNoneSpent(h, b', taker);
    }
  }

  lemma OnceNotSpent(h: HashOrder, b: Book, taker: OrderId, x: OrderId)
    requires WF(b) && taker in b.orders && CanMatch(b, taker)
    requires forall y :: y in b.orders && y != taker ==> b.orders[y].Remaining() > 0
    requires x in MatchOnce(h, b, taker).orders && x != taker
    ensures MatchOnce(h, b, taker).orders[x].Remaining() > 0
  {
    MatchOnceOrders(h, b, taker);
    MakerAfterOnce(h, b, taker);
    MakerRests(b, taker);
    if x != MakerOf(b, taker) {
      OthersAfterOnce(h, b, taker, x);
    }
  }

  /** Where the opposite cache is right, a market order is fully filled exactly when enough is resting
      on the other side; and exactly then, against what its comments promise, it stays in the book. */
  lemma MarketStaysIffFilled(h: HashOrder, b: Book, o: Order)
    requires WF(b) && CacheOK(o.side.Opposite(), b.On(o.side.Opposite()))
    requires Admits(b, o.id) && OrderOK(o) && o.kind.Market? && o.Remaining() > 0
    ensures o.id in Settle(h, b, o).book.orders <==> o.Remaining() <= Facing(b, o)
    ensures o.id in Settle(h, b, o).book.orders ==> Settle(h, b, o).book.orders[o.id].Remaining() == 0
  {
    SettledOrders(h, b, o);
    TakerSettled(h, b, o);
    FacingIsLiquidity(b, o);
    PlacedKeepsOpposite(b, o);
    MatchRemainder(h, Placed(b, o), o.id);
  }

  /** A fully filled market order keeps standing at its sentinel price and takes over the cached best
      of its side: the highest bid there is, or, for a sell, the value that means "no asks". */
  lemma SpentOrderTakesOverTheCache(h: HashOrder, b: Book, o: Order)
    requires WF(b) && Admits(b, o.id) && OrderOK(o) && o.kind.Market? && o.price == MarketPrice(o.side)
    requires o.id in Settle(h, b, o).book.orders
    ensures var l := Settle(h, b, o).book.On(o.side);
      l.best == MarketPrice(o.side) && Queued(l, MarketPrice(o.side), o.id)
  {
    SettledOrders(h, b, o);
    OwnSideMatched(h, b, o);
    var lev := LevelAt(b.On(o.side), o.price);
    assert o.id in lev.queue + [o.id];
  }

  lemma PlacedKeepsOpposite(b: Book, o: Order)
    requires Admits(b, o.id)
    ensures Placed(b, o).On(o.side.Opposite()) == b.On(o.side.Opposite())
    ensures Placed(b, o).orders == b.orders[o.id := o]
    ensures Placed(b, o).On(o.side) == Pushed(o.side, b.On(o.side), o.id, o.price, ShownQty(o))
  {
  }

  /** The opposite side of a settled order. */
  lemma OppositeSettled(h: HashOrder, b: Book, o: Order)
    requires WF(b) && Admits(b, o.id) && OrderOK(o)
    ensures WF(Placed(b, o)) && o.id in Placed(b, o).orders
    ensures Settle(h, b, o).book.On(o.side.Opposite()) == Match(h, Placed(b, o), o.id).book.On(o.side.Opposite())
  {
    TakerSettled(h, b, o);
    RemoveFrame(h, Match(h, Placed(b, o), o.id).book, o.id);
  }

  lemma OppositeKept(h: HashOrder, b: Book, o: Order)
    requires WF(b) && CacheOK(o.side.Opposite(), b.On(o.side.Opposite())) && Admits(b, o.id) && OrderOK(o)
    ensures var s := o.side.Opposite(); var l' := Settle(h, b, o).book.On(s);
      CacheOK(s, l') && l'.levels.Keys <= b.On(s).levels.Keys
  {
    OppositeSettled(h, b, o);
    PlacedKeepsOpposite(b, o);
    MatchCache(h, Placed(b, o), o.id);
  }

  lemma SettleNoneSpent(h: HashOrder, b: Book, o: Order)
    requires Tidy(b) && Admits(b, o.id) && OrderOK(o) && o.Remaining() > 0
    requires o.kind.Market? ==> o.Remaining() > Facing(b, o)
    ensures NoneSpent(Settle(h, b, o).book)
  {
    TakerSettled(h, b, o);
    SettledOrders(h, b, o);
    PlacedKeepsOpposite(b, o);
    MatchNoneSpent(h, Placed(b, o), o.id);
    if o.kind.Market? {
      MarketStaysIffFilled(h, b, o);
    }
  }

  /** A resting limit or iceberg order has stopped short of every price on the other side. */
  lemma RestingStopsShort(h: HashOrder, b: Book, o: Order, q: Tick)
    requires WF(b) && CacheOK(o.side.Opposite(), b.On(o.side.Opposite()))
    requires Admits(b, o.id) && OrderOK(o) && !o.kind.Market?
    requires o.id in Settle(h, b, o).book.orders
    requires q in Settle(h, b, o).book.On(o.side.Opposite()).levels
    ensures if o.side.Bid? then o.price < q else q < o.price
  {
    var s := o.side.Opposite();
    SettledOrders(h, b, o);
    TakerSettled(h, b, o);
    OppositeSettled(h, b, o);
    OppositeKept(h, b, o);
    var m := Match(h, Placed(b, o), o.id);
    MatchWF(h, Placed(b, o), o.id);
    var l := m.book.On(s);
    assert SideOK(s, l, m.book.orders);
    assert LevelOK(s, l.best, l.levels[l.best].queue, m.book.orders);
    assert !CanMatch(m.book, o.id);
    assert !Better(s, q, l.best);
  }

  /** The own side of an order that rests. */
  lemma OwnSideRests(h: HashOrder, b: Book, o: Order)
    requires WF(b) && CacheOK(o.side, b.On(o.side)) && Admits(b, o.id) && OrderOK(o) && o.price != INVALID_PRICE
    requires o.id in Settle(h, b, o).book.orders
    ensures var l' := Settle(h, b, o).book.On(o.side);
      CacheOK(o.side, l') && l'.levels.Keys == b.On(o.side).levels.Keys + {o.price}
  {
    hide WF, OrderOK, CacheOK, Settle, Match;
    SettledOrders(h, b, o);
    OwnSideMatched(h, b, o);
    hide Admits;
    var l1 := Pushed(o.side, b.On(o.side), o.id, o.price, ShownQty(o));
    PushedCacheOK(o.side, b.On(o.side), o.id, o.price, ShownQty(o));
    SameQueuesCacheOK(o.side, l1, Settle(h, b, o).book.On(o.side));
  }

  /** A new order never leaves the book crossed, although during its match it sits crossed in its
      own side: true of limit and iceberg orders, and of market orders that are not fully filled. */
  lemma SettleTidy(h: HashOrder, b: Book, o: Order)
    requires Tidy(b) && Admits(b, o.id) && OrderOK(o) && o.filled == 0 && o.Remaining() > 0
    requires if o.kind.Market? then o.Remaining() > Facing(b, o) else o.price != INVALID_PRICE
    ensures Tidy(Settle(h, b, o).book)
  {
    var s, b' := o.side, Settle(h, b, o).book;
    hide WF, CacheOK, OrderOK, Settle, Admits, NoneSpent;
    SettleWF(h, b, o);
    SettleNoneSpent(h, b, o);
    OppositeKept(h, b, o);
    if o.id in b'.orders {
      if o.kind.Market? {
        MarketStaysIffFilled(h, b, o);
      } else {
        OwnSideRests(h, b, o);
        forall q | q in b'.On(s.Opposite()).levels
          ensures if s.Bid? then o.price < q else q < o.price
        {
          RestingStopsShort(h, b, o, q);
        }
        UncrossedBySides(b, b', s, {o.price});
      }
    } else {
      LeavesQueues(h, b, o);
      SameQueuesCacheOK(s, b.On(s), b'.On(s));
      UncrossedBySides(b, b', s, {});
    }
  }

  lemma UncrossedBySides(b: Book, b': Book, s: Side, added: set<Tick>)
    requires Uncrossed(b)
    requires b'.On(s).levels.Keys <= b.On(s).levels.Keys + added
    requires b'.On(s.Opposite()).levels.Keys <= b.On(s.Opposite()).levels.Keys
    requires forall p, q :: p in added && q in b'.On(s.Opposite()).levels ==> if s.Bid? then p < q else q < p
    ensures Uncrossed(b')
  {
    forall p, q | p in b'.bids.levels && q in b'.asks.levels
      ensures p < q
    {
      if s.Bid? {
        assert p in b'.On(s).levels.Keys && q in b'.On(s.Opposite()).levels.Keys;
      } else {
        assert q in b'.On(s).levels.Keys && p in b'.On(s.Opposite()).levels.Keys;
      }
    }
  }

  // ---------------------------------------------------------------- cancels and modifies

  lemma CancelTidy(h: HashOrder, b: Book, id: OrderId)
    requires Tidy(b)
    ensures Tidy(Cancel(h, b, id))
  {
    if id in b.orders {
      var o := b.orders[id];
      RemoveWF(h, b, id);
      RemoveFrame(h, b, id);
      UnqueuedOnlyDrops(h, b.scans, o.side, b.On(o.side), id, o.price, o.Remaining());
      hide WF, CacheOK, Remove, Unqueued;
      UnqueuedCacheOK(h, b.scans, o.side, b.On(o.side), id, o.price, o.Remaining());
      UncrossedBySides(b, Remove(h, b, id), o.side, {});
    }
  }

  lemma InPlaceTidy(b: Book, id: OrderId, qty: int)
    requires Tidy(b) && ModifyAllowed(b, id, qty)
    ensures Tidy(ModifyDown(b, id, qty))
  {
    hide CacheOK, SideOK, OrdersOK, ModifyDown;
    ModifyDownWF(b, id, qty);
    ModifyDownInPlace(b, id, qty);
    SameQueuesCacheOK(Bid, b.bids, ModifyDown(b, id, qty).bids);
    SameQueuesCacheOK(Ask, b.asks, ModifyDown(b, id, qty).asks);
  }

  lemma RepriceOrders(h: HashOrder, b: Book, id: OrderId, p: Tick, qty: int)
    requires Tidy(b) && ModifyAllowed(b, id, qty) && p != b.orders[id].price
    ensures WF(Modify(h, b, id, p, qty)) && NoneSpent(Modify(h, b, id, p, qty))
  {
    ModifyWF(h, b, id, p, qty);
    hide SideOK, OrdersOK, Modify, Remove, CacheOK, Uncrossed;
    RepriceIsRemoveThenInsert(h, b, id, p, qty);
    RemoveFrame(h, b, id);
  }

  /** A price change re-adds without matching. It keeps everything but the uncrossed property. */
  lemma RepriceSides(h: HashOrder, b: Book, id: OrderId, p: Tick, qty: int)
    requires Tidy(b) && ModifyAllowed(b, id, qty) && p != b.orders[id].price && p != INVALID_PRICE
    ensures var s, b' := b.orders[id].side, Modify(h, b, id, p, qty);
      && CacheOK(s, b'.On(s)) && CacheOK(s.Opposite(), b'.On(s.Opposite()))
      && p in b'.On(s).levels
      && b'.On(s).levels.Keys <= b.On(s).levels.Keys + {p}
      && b'.On(s.Opposite()) == b.On(s.Opposite())
  {
    var o := b.orders[id];
    var o', r := Repriced(o, p, qty), Remove(h, b, id);
    UnqueuedCacheOK(h, b.scans, o.side, b.On(o.side), id, o.price, o.Remaining());
    RemoveFrame(h, b, id);
    RepriceIsRemoveThenInsert(h, b, id, p, qty);
    hide SideOK, OrdersOK, Modify, Remove, CacheOK, Uncrossed, NoneSpent;
    PushedCacheOK(o.side, r.On(o.side), id, p, ShownQty(o'));
    assert r.On(o.side).levels.Keys <= b.On(o.side).levels.Keys;
  }

  /** Nothing stops a modify to the price that means "none", and it spoils the cache of its side. */
  lemma RepriceToSentinel(h: HashOrder, b: Book, id: OrderId, qty: int)
    requires WF(b) && ModifyAllowed(b, id, qty) && b.orders[id].price != INVALID_PRICE
    ensures var s := b.orders[id].side; !CacheOK(s, Modify(h, b, id, INVALID_PRICE, qty).On(s))
  {
    var o := Repriced(b.orders[id], INVALID_PRICE, qty);
    RepriceIsRemoveThenInsert(h, b, id, INVALID_PRICE, qty);
    InsertFrame(Remove(h, b, id), o, ShownQty(o));
  }

  /** A price-changing modify keeps the book orderly exactly when the new price is a real one that does
      not reach the opposite best: the code does not match after re-adding. */
  lemma RepriceUncrossedIff(h: HashOrder, b: Book, id: OrderId, p: Tick, qty: int)
    requires Tidy(b) && ModifyAllowed(b, id, qty) && p != b.orders[id].price
    ensures Tidy(Modify(h, b, id, p, qty)) <==> p != INVALID_PRICE && !Reaches(b, b.orders[id].side, p)
  {
    if p == INVALID_PRICE {
      RepriceToSentinel(h, b, id, qty);
    } else {
      RepriceUncrossed(h, b, id, p, qty);
    }
  }

  lemma RepriceUncrossed(h: HashOrder, b: Book, id: OrderId, p: Tick, qty: int)
    requires Tidy(b) && ModifyAllowed(b, id, qty) && p != b.orders[id].price && p != INVALID_PRICE
    ensures Tidy(Modify(h, b, id, p, qty)) <==> !Reaches(b, b.orders[id].side, p)
  {
    hide WF, CacheOK, NoneSpent, Uncrossed, Modify, Reaches;
    var s, b' := b.orders[id].side, Modify(h, b, id, p, qty);
    RepriceSides(h, b, id, p, qty);
    RepriceOrders(h, b, id, p, qty);
    SplitBySide(b', s);
    hide ModifyAllowed;
    if Reaches(b, s, p) {
      ReachedLevel(b, s, p);
      CrossedAt(b', s, p, b.On(s.Opposite()).best);
    } else {
      forall q | q in b'.On(s.Opposite()).levels
        ensures if s.Bid? then p < q else q < p
      {
        NotReachingStaysClear(b, s, p, q);
      }
      UncrossedBySides(b, b', s, {p});
    }
  }

  lemma SplitBySide(b: Book, s: Side)
    ensures Tidy(b) <==>
      WF(b) && CacheOK(s, b.On(s)) && CacheOK(s.Opposite(), b.On(s.Opposite())) && NoneSpent(b) && Uncrossed(b)
  {
  }

  lemma ReachedLevel(b: Book, s: Side, p: Tick)
    requires CacheOK(s.Opposite(), b.On(s.Opposite())) && Reaches(b, s, p)
    ensures var q := b.On(s.Opposite()).best;
      q in b.On(s.Opposite()).levels && if s.Bid? then p >= q else p <= q
  {
  }

  lemma CrossedAt(b: Book, s: Side, p: Tick, q: Tick)
    requires p in b.On(s).levels && q in b.On(s.Opposite()).levels && if s.Bid? then p >= q else p <= q
    ensures !Uncrossed(b)
  {
  }
}
