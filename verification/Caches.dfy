/** When the cached best prices are right, command by command and over whole runs, without assuming an
    orderly book; and what a wrong ask cache does to the orders that meet it. */
module Caches {
  import opened Types
  import opened LimitOrderBook
  import opened BookInvariants
  import opened Matching
  import opened Priority
  import opened Settlement
  import opened Orderly
  import opened Engine

  /** In a well-formed book the bid cache can only be wrong if an order rests at the sentinel. */
  lemma BidCacheIff(b: Book)
    requires WF(b)
    ensures CacheOK(Bid, b.bids) <==> INVALID_PRICE !in b.bids.levels
  {
    if INVALID_PRICE !in b.bids.levels && b.bids.levels != map[] {
      var p :| p in b.bids.levels;
      assert p <= b.bids.best;
    }
  }

  // ---------------------------------------------------------------- one command

  /** A new order as the engine makes it: a market order at its sentinel, any other at a real price. */
  ghost predicate Entering(o: Order) {
    && OrderOK(o) && o.filled == 0 && o.Remaining() > 0
    && (if o.kind.Market? then o.price == MarketPrice(o.side) else o.price != INVALID_PRICE)
  }

  /** A market sell that the bids can fill. */
  ghost predicate SpendsSell(b: Book, o: Order) {
    o.kind.Market? && o.side.Ask? && o.Remaining() <= Facing(b, o)
  }

  /** The own side of an order that does not end up at the sentinel. */
  lemma OwnCacheKept(h: HashOrder, b: Book, o: Order)
    requires WF(b) && CacheOK(o.side, b.On(o.side)) && Admits(b, o.id) && OrderOK(o) && o.filled == 0
    requires o.id in Settle(h, b, o).book.orders ==> o.price != INVALID_PRICE
    ensures CacheOK(o.side, Settle(h, b, o).book.On(o.side))
  {
    hide WF, CacheOK, OrderOK, Settle, Admits;
    if o.id in Settle(h, b, o).book.orders {
      OwnSideRests(h, b, o);
    } else {
      LeavesQueues(h, b, o);
      SameQueuesCacheOK(o.side, b.On(o.side), Settle(h, b, o).book.On(o.side));
    }
  }

  lemma QueuedAtSentinel(l: Ladder, id: OrderId)
    requires Queued(l, INVALID_PRICE, id)
    ensures !CacheOK(Ask, l)
  {
  }

  /** A new order never spoils the bid cache, and spoils the ask cache exactly if it is a market sell
      that is fully filled. */
  lemma NewOrderCaches(h: HashOrder, b: Book, o: Order)
    requires WF(b) && CacheOK(Bid, b.bids) && Admits(b, o.id) && Entering(o)
    ensures CacheOK(Bid, Settle(h, b, o).book.bids)
    ensures CacheOK(Ask, b.asks) ==> (CacheOK(Ask, Settle(h, b, o).book.asks) <==> !SpendsSell(b, o))
  {
    hide WF, CacheOK, OrderOK, Settle, Admits, Facing;
    if o.side.Bid? {
      OwnCacheKept(h, b, o);
      if CacheOK(Ask, b.asks) {
        OppositeKept(h, b, o);
      }
    } else {
      OppositeKept(h, b, o);
      if CacheOK(Ask, b.asks) {
        if o.kind.Market? {
          MarketStaysIffFilled(h, b, o);
        }
        if SpendsSell(b, o) {
          SpentOrderTakesOverTheCache(h, b, o);
          QueuedAtSentinel(Settle(h, b, o).book.asks, o.id);
        } else {
          OwnCacheKept(h, b, o);
        }
      }
    }
  }

  lemma CancelCaches(h: HashOrder, b: Book, id: OrderId, s: Side)
    requires WF(b) && CacheOK(s, b.On(s))
    ensures CacheOK(s, Cancel(h, b, id).On(s))
  {
    if id in b.orders {
      var o := b.orders[id];
      RemoveFrame(h, b, id);
      hide WF, CacheOK, Remove;
      if s == o.side {
        UnqueuedCacheOK(h, b.scans, s, b.On(s), id, o.price, o.Remaining());
      }
    }
  }

  lemma ModifyCaches(h: HashOrder, b: Book, id: OrderId, p: Tick, qty: int, s: Side)
    requires WF(b) && CacheOK(s, b.On(s)) && p != INVALID_PRICE
    ensures CacheOK(s, Modify(h, b, id, p, qty).On(s))
  {
    if ModifyAllowed(b, id, qty) {
      if p != b.orders[id].price {
        var o' := Repriced(b.orders[id], p, qty);
        RepriceIsRemoveThenInsert(h, b, id, p, qty);
        CancelCaches(h, b, id, s);
        hide WF, CacheOK, Modify, Remove;
        InsertFrame(Remove(h, b, id), o', ShownQty(o'));
        if s == o'.side {
          PushedCacheOK(s, Remove(h, b, id).On(s), id, p, ShownQty(o'));
        }
      } else {
        ModifyDownInPlace(b, id, qty);
        hide WF, CacheOK, ModifyDown;
        SameQueuesCacheOK(s, b.On(s), ModifyDown(b, id, qty).On(s));
      }
    }
  }

  /** The commands that can put an order at the sentinel price among the asks, or name that price. */
  predicate NamesSentinel(c: Command) {
    c.ModifyOrder? && c.price == INVALID_PRICE
  }

  ghost predicate SellsOut(b: Book, c: Command) {
    c.NewOrder? && Accepts(b, c) && SpendsSell(b, OrderOf(c))
  }

  lemma OrderEnters(c: Command)
    requires c.NewOrder? && ValidNew(c.kind, c.price, c.qty, c.display)
    ensures Entering(OrderOf(c))
  {
    OrderOfOK(c);
  }

  /** One command, whatever the book: the bid cache stays right, and a right ask cache stays right
      exactly if the command is not a market sell that is fully filled. */
  lemma CommandCaches(h: HashOrder, b: Book, c: Command)
    requires WF(b) && CacheOK(Bid, b.bids) && !NamesSentinel(c)
    ensures CacheOK(Bid, Apply(h, b, c).book.bids)
    ensures CacheOK(Ask, b.asks) ==> (CacheOK(Ask, Apply(h, b, c).book.asks) <==> !SellsOut(b, c))
  {
    hide WF, CacheOK, Settle, Modify, Cancel, Entering, SpendsSell, Admits;
    match c
    case NewOrder(_, _, _, _, _, _) =>
      if Accepts(b, c) {
        OrderOfOK(c);
        OrderEnters(c);
        NewOrderCaches(h, b, OrderOf(c));
      }
    case CancelOrder(id) =>
      CancelCaches(h, b, id, Bid);
      if CacheOK(Ask, b.asks) {
        CancelCaches(h, b, id, Ask);
      }
    case ModifyOrder(id, p, qty) =>
      ModifyCaches(h, b, id, p, qty, Bid);
      if CacheOK(Ask, b.asks) {
        ModifyCaches(h, b, id, p, qty, Ask);
      }
    case Other =>
  }

  // ---------------------------------------------------------------- runs

  predicate NoSentinels(cs: seq<Command>) {
    forall i :: 0 <= i < |cs| ==> !NamesSentinel(cs[i])
  }

  ghost predicate NeverSellsOut(h: HashOrder, s: State, cs: seq<Command>)
    requires WF(s.book)
    decreases |cs|
  {
    cs == [] ||
    (NeverSellsOut(h, s, cs[..|cs| - 1]) && !SellsOut(After(h, s, cs[..|cs| - 1]).book, cs[|cs| - 1]))
  }

  /** Over any run whose modifies name real prices the bid cache is right, and the ask cache is right
      until a market sell is fully filled. Crossed books and spent buys do no harm to it. */
  lemma {:induction false} CachesOverRuns(h: HashOrder, capacity: nat, fees: Fees, cs: seq<Command>)
    requires WF(Start(capacity, fees).book) && NoSentinels(cs)
    ensures CacheOK(Bid, After(h, Start(capacity, fees), cs).book.bids)
    ensures NeverSellsOut(h, Start(capacity, fees), cs) ==> CacheOK(Ask, After(h, Start(capacity, fees), cs).book.asks)
    decreases |cs|
  {
    var s := Start(capacity, fees);
    EmptyWF(capacity);
    if cs != [] {
      var init, c := cs[..|cs| - 1], cs[|cs| - 1];
      assert NoSentinels(init) && !NamesSentinel(c);
      CachesOverRuns(h, capacity, fees, init);
      hide WF, CacheOK, Apply, SellsOut, Start;
      CommandCaches(h, After(h, s, init).book, c);
    }
  }

  ghost predicate AsksRightAfter(h: HashOrder, s: State, cs: seq<Command>)
    requires WF(s.book)
  {
    CacheOK(Ask, After(h, s, cs).book.asks)
  }

  ghost predicate AsksRightSoFar(h: HashOrder, s: State, cs: seq<Command>)
    requires WF(s.book)
  {
    forall n :: 0 <= n <= |cs| ==> AsksRightAfter(h, s, cs[..n])
  }

  lemma RightSoFarNext(h: HashOrder, s: State, cs: seq<Command>)
    requires WF(s.book) && cs != []
    ensures AsksRightSoFar(h, s, cs)
      <==> AsksRightSoFar(h, s, cs[..|cs| - 1]) && AsksRightAfter(h, s, cs)
  {
    hide WF, AsksRightAfter;
    var init := cs[..|cs| - 1];
    assert cs[..|cs|] == cs;
    if AsksRightSoFar(h, s, cs) {
      forall n | 0 <= n <= |init|
        ensures AsksRightAfter(h, s, init[..n])
      {
        assert init[..n] == cs[..n];
      }
    }
    if AsksRightSoFar(h, s, init) && AsksRightAfter(h, s, cs) {
      forall n | 0 <= n <= |cs|
        ensures AsksRightAfter(h, s, cs[..n])
      {
        assert n < |cs| ==> init[..n] == cs[..n];
      }
    }
  }

  /** Over those runs the ask cache is right after every command exactly if no market sell is ever fully
      filled. */
  lemma {:induction false} AsksRightIff(h: HashOrder, capacity: nat, fees: Fees, cs: seq<Command>)
    requires WF(Start(capacity, fees).book) && NoSentinels(cs)
    ensures AsksRightSoFar(h, Start(capacity, fees), cs) <==> NeverSellsOut(h, Start(capacity, fees), cs)
    decreases |cs|
  {
    var s := Start(capacity, fees);
    if cs == [] {
      EmptyWF(capacity);
    } else {
      var init, c := cs[..|cs| - 1], cs[|cs| - 1];
      assert NoSentinels(init) && !NamesSentinel(c);
      AsksRightIff(h, capacity, fees, init);
      CachesOverRuns(h, capacity, fees, init);
      RightSoFarNext(h, s, cs);
      assert init[..|init|] == init;
      hide WF, CacheOK, Apply, SellsOut, Start;
      CommandCaches(h, After(h, s, init).book, c);
    }
  }

  /** Price-time priority over those runs: for every accepted sell, and for every accepted buy until a
      market sell has been fully filled. */
  lemma PriorityOverRuns(h: HashOrder, capacity: nat, fees: Fees, cs: seq<Command>, c: Command)
    requires WF(Start(capacity, fees).book) && NoSentinels(cs) && c.NewOrder?
    requires var b := After(h, Start(capacity, fees), cs).book; Accepts(b, c)
    requires c.side.Bid? ==> NeverSellsOut(h, Start(capacity, fees), cs)
    ensures var b, o := After(h, Start(capacity, fees), cs).book, OrderOf(c);
      && o.id in Settlement.Placed(b, o).orders
      && Apply(h, b, c).fills == Greedy(o.id, o.Remaining(), EligibleQuotes(Settlement.Placed(b, o), o.id))
  {
    CachesOverRuns(h, capacity, fees, cs);
    OrderOfOK(c);
    var b, o := After(h, Start(capacity, fees), cs).book, OrderOf(c);
    hide WF, CacheOK, Start, After, NeverSellsOut, Admits, OrderOK, OrderOf;
    SettledGreedily(h, b, o);
  }

  lemma SettledGreedily(h: HashOrder, b: Book, o: Order)
    requires WF(b) && Admits(b, o.id) && OrderOK(o) && CacheOK(o.side.Opposite(), b.On(o.side.Opposite()))
    ensures o.id in Settlement.Placed(b, o).orders
    ensures Settle(h, b, o).fills == Greedy(o.id, o.Remaining(), EligibleQuotes(Settlement.Placed(b, o), o.id))
  {
    SettledOrders(h, b, o);
    PlacedKeepsOpposite(b, o);
    hide WF, CacheOK, Admits, OrderOK, Settle, Insert;
    MatchIsGreedy(h, Settlement.Placed(b, o), o.id);
  }

  // ---------------------------------------------------------------- a wrong ask cache

  lemma GreedyStarts(taker: OrderId, want: int, quotes: seq<Quote>)
    requires want > 0 && quotes != []
    ensures var fills := Greedy(taker, want, quotes); fills != [] && fills[0].price == quotes[0].price
  {
    var parts := Slices(Min(want, quotes[0].rem), quotes[0].slice);
    assert |SliceFills(taker, quotes[0], parts)| == |parts| > 0;
  }

  /** The walk starts at the best price there is, whatever the cache says. */
  lemma WalkStarts(b: Book, taker: OrderId)
    requires WF(b) && taker in b.orders && EligibleQuotes(b, taker) != []
    ensures var s := b.orders[taker].side.Opposite(); var keys := b.On(s).levels.Keys;
      keys != {} && EligibleQuotes(b, taker)[0].price == BestPrice(s, keys)
          && b.orders[taker].Accepts(BestPrice(s, keys))
  {
    var t := b.orders[taker];
    var s := t.side.Opposite();
    var l := b.On(s);
    assert l.levels.Keys != {};
    var p := BestPrice(s, l.levels.Keys);
    assert SideOK(s, l, b.orders);
    assert LevelOK(s, p, l.levels[p].queue, b.orders);
    var line := Line(s, l.levels, Terms(t));
    assert line[0] == l.levels[p].queue[0];
    assert l.levels[p].queue[0] in l.levels[p].queue;
  }

  /** In a well-formed book, a best ask that is a real price and cached makes the whole cache right. */
  lemma AskCacheIff(b: Book)
    requires WF(b) && b.asks.levels != map[]
    ensures b.asks.levels.Keys != {}
    ensures CacheOK(Ask, b.asks) <==> b.asks.best == BestPrice(Ask, b.asks.levels.Keys) && b.asks.best != INVALID_PRICE
  {
    assert b.asks.levels.Keys != {};
    var p := BestPrice(Ask, b.asks.levels.Keys);
    if CacheOK(Ask, b.asks) {
      CachedBest(Ask, b.asks);
    }
    if b.asks.best == p && p != INVALID_PRICE {
      assert INVALID_PRICE in b.asks.levels ==> Better(Ask, INVALID_PRICE, p);
    }
  }

  lemma FirstFillPrice(h: HashOrder, b: Book, taker: OrderId)
    requires WF(b) && taker in b.orders
    ensures CanMatch(b, taker) <==> Match(h, b, taker).fills != []
    ensures CanMatch(b, taker) ==> Match(h, b, taker).fills[0].price == b.On(b.orders[taker].side.Opposite()).best
  {
    if CanMatch(b, taker) {
      MatchUnfolds(h, b, taker);
      MakerRests(b, taker);
    }
  }

  /** Exactly when a buy gets price-time priority: when the ask cache is right, or no ask is within
      its reach anyway. */
  lemma BuysGreedyIff(h: HashOrder, b: Book, taker: OrderId)
    requires WF(b) && taker in b.orders && b.orders[taker].side.Bid? && b.orders[taker].Remaining() > 0
    ensures Match(h, b, taker).fills == Greedy(taker, b.orders[taker].Remaining(), EligibleQuotes(b, taker))
      <==> CacheOK(Ask, b.asks) || EligibleQuotes(b, taker) == []
  {
    var t, qs := b.orders[taker], EligibleQuotes(b, taker);
    if CacheOK(Ask, b.asks) {
      MatchIsGreedy(h, b, taker);
    } else if qs == [] {
      NothingWithinReach(h, b, taker);
    } else {
      WalkStarts(b, taker);
      GreedyStarts(taker, t.Remaining(), qs);
      AskCacheIff(b);
      FirstFillPrice(h, b, taker);
    }
  }

  lemma NothingWithinReach(h: HashOrder, b: Book, taker: OrderId)
    requires WF(b) && taker in b.orders && EligibleQuotes(b, taker) == []
    ensures Match(h, b, taker).fills == []
  {
    FirstFillPrice(h, b, taker);
    if CanMatch(b, taker) {
      MatchableIsEligible(b, taker);
    }
  }

  lemma MatchableIsEligible(b: Book, taker: OrderId)
    requires WF(b) && taker in b.orders && CanMatch(b, taker)
    ensures EligibleQuotes(b, taker) != []
  {
    var t := b.orders[taker];
    var s := t.side.Opposite();
    var l := b.On(s);
    assert l.best in l.levels.Keys;
    var p := BestPrice(s, l.levels.Keys);
    assert t.Accepts(p);
    assert SideOK(s, l, b.orders) && LevelOK(s, p, l.levels[p].queue, b.orders);
    assert |Quotes(b.orders, Line(s, l.levels, Terms(t)))| == |Line(s, l.levels, Terms(t))| > 0;
  }

  /** With the ask cache at the sentinel no buy trades, however many asks rest. */
  lemma BuysSeeNoAsks(h: HashOrder, b: Book, o: Order)
    requires WF(b) && Admits(b, o.id) && OrderOK(o) && o.side.Bid? && b.asks.best == INVALID_PRICE
    ensures Settle(h, b, o).fills == [] && Settle(h, b, o).book.asks == b.asks
  {
    SettledOrders(h, b, o);
    OppositeSettled(h, b, o);
    PlacedKeepsOpposite(b, o);
    hide WF, Admits, OrderOK, Settle, Insert;
    assert !CanMatch(Settlement.Placed(b, o), o.id);
  }

  /** A fully filled market sell hides the asks: they all rest as before, and the cache says there is
      none. */
  lemma SpentSellHidesAsks(h: HashOrder, b: Book, o: Order)
    requires WF(b) && CacheOK(Bid, b.bids) && Admits(b, o.id) && Entering(o) && SpendsSell(b, o)
    ensures var b' := Settle(h, b, o).book;
      && WF(b') && b'.asks.best == INVALID_PRICE
      && b'.asks.levels.Keys == b.asks.levels.Keys + {INVALID_PRICE}
      && forall p :: p in b.asks.levels && p != INVALID_PRICE
          ==> p in b'.asks.levels && b'.asks.levels[p] == b.asks.levels[p]
  {
    MarketStaysIffFilled(h, b, o);
    SettleWF(h, b, o);
    SettledOrders(h, b, o);
    OwnSideMatched(h, b, o);
    SpentOrderTakesOverTheCache(h, b, o);
    hide WF, Admits, OrderOK, CacheOK, Facing, Settle, Match, Pushed, Reduced, Queued;
    var n := FilledIn(Match(h, Settlement.Placed(b, o), o.id).fills, o.id);
    OtherLevelsKept(b.asks, o.id, o.price, ShownQty(o), n);
  }

  lemma OtherLevelsKept(l: Ladder, id: OrderId, at: Tick, shown: int, n: int)
    ensures var l' := Reduced(Pushed(Ask, l, id, at, shown), at, n);
      && l'.levels.Keys == l.levels.Keys + {at}
      && forall p :: p in l.levels && p != at ==> p in l'.levels && l'.levels[p] == l.levels[p]
  {
  }

  /** A limit buy at or above a hidden ask rests all the same, and leaves the book crossed. */
  lemma HiddenAskCrosses(h: HashOrder, b: Book, o: Order, q: Tick)
    requires WF(b) && Admits(b, o.id) && OrderOK(o) && o.Remaining() > 0 && !o.kind.Market?
    requires o.side.Bid? && b.asks.best == INVALID_PRICE && q in b.asks.levels && q <= o.price
    ensures !Uncrossed(Settle(h, b, o).book)
  {
    NotCrossingRests(h, b, o);
    InsertFrame(b, o, ShownQty(o));
    hide WF, Admits, OrderOK, Settle, Insert;
    assert o.price in Settlement.Placed(b, o).bids.levels;
  }

  /** An ask that comes to rest while a spent sell stands at the sentinel brings the asks back into
      sight, itself first. */
  lemma RestingAskShows(h: HashOrder, b: Book, o: Order)
    requires WF(b) && Admits(b, o.id) && OrderOK(o) && o.side.Ask? && !o.kind.Market?
    requires b.asks.best == INVALID_PRICE && INVALID_PRICE in b.asks.levels && o.id in Settle(h, b, o).book.orders
    ensures var asks := Settle(h, b, o).book.asks;
      asks.best == o.price && INVALID_PRICE in asks.levels && o.price in asks.levels
  {
    SettledOrders(h, b, o);
    OwnSideMatched(h, b, o);
    hide WF, Admits, OrderOK, Settle, Match;
  }

  /** Until the next market sell, even one that is killed: it leaves no order, but hides them again. */
  lemma KilledSellHides(h: HashOrder, b: Book, o: Order)
    requires WF(b) && Admits(b, o.id) && Entering(o) && o.kind.Market? && o.side.Ask?
    requires INVALID_PRICE in b.asks.levels && b.asks.best != INVALID_PRICE
    requires o.id !in Settle(h, b, o).book.orders
    ensures var asks := Settle(h, b, o).book.asks;
      asks != b.asks && asks.levels == b.asks.levels && asks.best == INVALID_PRICE
  {
    hide WF, Admits, Settle;
    MarketFrame(h, b, o);
  }

  /** The next ask to come takes over the cache, whatever cheaper asks rest. */
  lemma NextAskTakesOver(b: Book, o: Order)
    requires o.side.Ask? && b.asks.best == INVALID_PRICE
    ensures Settlement.Placed(b, o).asks.best == o.price
  {
  }

  /** And a buy that reaches it trades with it first, ahead of the cheaper ones. */
  lemma DearerAskFirst(h: HashOrder, b: Book, taker: OrderId, q: Tick)
    requires WF(b) && taker in b.orders && b.orders[taker].side.Bid? && CanMatch(b, taker)
    requires q in b.asks.levels && q < b.asks.best
    ensures var fills := Match(h, b, taker).fills;
      && fills != [] && fills[0].price == b.asks.best
      && fills != Greedy(taker, b.orders[taker].Remaining(), EligibleQuotes(b, taker))
  {
    FirstFillPrice(h, b, taker);
    if EligibleQuotes(b, taker) == [] {
      NothingWithinReach(h, b, taker);
    }
    BuysGreedyIff(h, b, taker);
    assert Better(Ask, q, b.asks.best);
  }
}
