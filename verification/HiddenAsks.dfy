/** Concrete runs with asks hidden by a fully filled market sell: a limit buy crosses them; and when they
    come back into sight, a killed market sell hides them again, and a buy pays less as it goes on. */
module HiddenAsks {
  import opened Types
  import opened LimitOrderBook
  import opened BookInvariants
  import opened Matching
  import opened Priority
  import opened Execution
  import opened Settlement
  import opened Orderly
  import opened Engine
  import opened Caches
  import opened Runs
  import opened Departures

  const ASK_AT_105: Command := NewOrder(4, Ask, Limit, 105, 1, 0)
  const SELL_THREE: Command := NewOrder(5, Ask, Market, 0, 3, 0)
  const BUY_SIX: Command := NewOrder(5, Bid, Limit, 110, 6, 0)

  // ---------------------------------------------------------------- the market sell

  /** The sell trades with the bid, once, for all of it. */
  lemma SellFills(h: HashOrder, b: Book)
    requires Tidy(b) && BothRest(b) && b.capacity >= 5
    ensures WF(b) && Accepts(b, SELL_FIVE) && Apply(h, b, SELL_FIVE).fills == [Fill(2, 3, 90, 5)]
  {
    SellAccepted(b);
    SellOrder(b);
    TidyParts(b);
    SellQuotes(b);
    hide WF, CacheOK, Tidy, Admits, OrderOK, Settle, BothRest, EligibleQuotes, Greedy;
    SettledGreedily(h, b, OrderOf(SELL_FIVE));
    OneFill(3, Quote(2, 90, 5, 5));
  }

  lemma OneFill(taker: OrderId, q: Quote)
    requires q.rem > 0 && q.slice == q.rem
    ensures Greedy(taker, q.rem, [q]) == [Fill(q.id, taker, q.price, q.rem)]
  {
    assert [q][1..] == [];
    assert Slices(q.rem, q.slice) == [q.rem];
    assert SliceFills(taker, q, [q.rem]) == [Fill(q.id, taker, q.price, q.rem)];
    assert Greedy(taker, 0, []) == [];
  }

  lemma SellQuotes(b: Book)
    requires BothRest(b)
    ensures var o := OrderOf(SELL_FIVE); var b1 := Settlement.Placed(b, o);
      o.id == 3 && o.Remaining() == 5 && 3 in b1.orders && EligibleQuotes(b1, 3) == [Quote(2, 90, 5, 5)]
  {
    var o := OrderOf(SELL_FIVE);
    var b1 := Settlement.Placed(b, o);
    assert b1.bids.levels == b.bids.levels && b1.orders == b.orders[3 := o];
    OneLevelLine(Bid, 90, 2, b1.bids.levels, Terms(o));
    assert QuoteAt(b1.orders, 2) == Quote(2, 90, 5, 5);
    hide Line;
    assert Quotes(b1.orders, [2]) == [Quote(2, 90, 5, 5)];
  }

  /** After it: no bids, the ask at 100 as it was, and the spent sell at the sentinel. */
  ghost predicate SoldOut(b: Book) {
    && WF(b) && b.capacity >= 5 && b.orders.Keys <= {1, 2, 3} && |b.orders| <= 3
    && b.bids.levels == map[] && b.bids.best == INVALID_PRICE
    && b.asks.levels.Keys == {100, INVALID_PRICE} && b.asks.levels[100] == Level([1], 5)
    && b.asks.best == INVALID_PRICE
  }

  lemma SellPlaced(b: Book)
    requires BothRest(b)
    ensures var o := OrderOf(SELL_FIVE); var b1 := Settlement.Placed(b, o);
      && b1.orders.Keys == {1, 2, 3} && b1.orders[2].Remaining() == 5
      && b1.orders[1].Remaining() == 5 && b1.orders[1].side == Ask && b1.orders[3].side == Ask
  {
    assert Settlement.Placed(b, OrderOf(SELL_FIVE)).orders == b.orders[3 := OrderOf(SELL_FIVE)];
  }

  lemma SellSettled(h: HashOrder, b: Book)
    requires Tidy(b) && BothRest(b) && b.capacity >= 5
    ensures WF(b) && var o := OrderOf(SELL_FIVE); var b1 := Settlement.Placed(b, o);
      && WF(b1) && 3 in b1.orders && Match(h, b1, 3).fills == [Fill(2, 3, 90, 5)]
      && Apply(h, b, SELL_FIVE).book.orders.Keys <= Match(h, b1, 3).book.orders.Keys
      && forall x :: x in Apply(h, b, SELL_FIVE).book.orders
          ==> Apply(h, b, SELL_FIVE).book.orders[x] == Match(h, b1, 3).book.orders[x]
  {
    SellFills(h, b);
    SellOrder(b);
    hide WF, Tidy, BothRest, Settle, Match, OrderOf, Settlement.Placed, Admits, OrderOK;
    SettledOrders(h, b, OrderOf(SELL_FIVE));
  }

  lemma BidIsGone(h: HashOrder, b: Book)
    requires Tidy(b) && BothRest(b) && b.capacity >= 5
    ensures WF(b) && OnlyAsks(Apply(h, b, SELL_FIVE).book)
  {
    hide WF, Tidy, BothRest, Settle, Match, OrderOf, Settlement.Placed, Apply, FilledIn;
    SellSettled(h, b);
    SellPlaced(b);
    FilledOnce();
    MatchedAsks(h, Settlement.Placed(b, OrderOf(SELL_FIVE)));
  }

  ghost predicate OnlyAsks(b: Book) {
    forall x :: x in b.orders ==> b.orders[x].side == Ask
  }

  /** The match in which order 2 trades all its five, it being the only bid. */
  lemma MatchedAsks(h: HashOrder, b: Book)
    requires WF(b) && b.orders.Keys == {1, 2, 3} && b.orders[2].Remaining() == 5 && b.orders[1].Remaining() > 0
    requires b.orders[1].side == Ask && b.orders[3].side == Ask && FilledIn(Match(h, b, 3).fills, 2) == 5
    ensures OnlyAsks(Match(h, b, 3).book)
  {
    hide WF, Match, FilledIn;
    MatchNoneSpent(h, b, 3);
    forall x | x in Match(h, b, 3).book.orders
      ensures Match(h, b, 3).book.orders[x].side == Ask
    {
      MatchAccounts(h, b, 3, x);
    }
  }

  lemma FilledOnce()
    ensures FilledIn([Fill(2, 3, 90, 5)], 2) == 5
  {
    assert [Fill(2, 3, 90, 5)][1..] == [];
  }

  lemma FrontIsBid(b: Book, p: Tick)
    requires WF(b) && p in b.bids.levels
    ensures exists x :: x in b.orders && b.orders[x].side == Bid
  {
    assert LevelOK(Bid, p, b.bids.levels[p].queue, b.orders);
    var x := b.bids.levels[p].queue[0];
    assert x in b.bids.levels[p].queue;
    assert x in b.orders && b.orders[x].side == Bid;
  }

  lemma NoBidsNoLevels(b: Book)
    requires WF(b) && OnlyAsks(b)
    ensures b.bids.levels == map[] && b.bids.best == INVALID_PRICE
  {
    assert SideOK(Bid, b.bids, b.orders);
    hide WF;
    if b.bids.levels != map[] {
      var p :| p in b.bids.levels;
      FrontIsBid(b, p);
    }
  }

  lemma SellsOutTheBids(h: HashOrder, b: Book)
    requires Tidy(b) && BothRest(b) && b.capacity >= 5
    ensures WF(b) && SoldOut(Apply(h, b, SELL_FIVE).book)
  {
    hide WF, CacheOK, Tidy, BothRest, Settle, OrderOf, Admits, OrderOK, Entering, Facing, SpendsSell, OnlyAsks;
    var o := OrderOf(SELL_FIVE);
    OneAskLevel(b);
    TwoKeys(b);
    TidyParts(b);
    SellAccepted(b);
    SellOrder(b);
    SellSpends(b);
    SpentSellHidesAsks(h, b, o);
    SettledKeys(h, b, o);
    BidIsGone(h, b);
    NoBidsNoLevels(Apply(h, b, SELL_FIVE).book);
  }

  lemma OneAskLevel(b: Book)
    requires BothRest(b)
    ensures b.asks.levels.Keys == {100} && b.asks.levels[100] == Level([1], 5)
  {
  }

  lemma SellSpends(b: Book)
    requires BothRest(b)
    ensures SpendsSell(b, OrderOf(SELL_FIVE))
  {
    BidFaces(b);
    hide Facing;
  }

  // ---------------------------------------------------------------- a buy that crosses

  const BUY_AT_100: Command := NewOrder(4, Bid, Limit, 100, 1, 0)

  lemma BuyOneOrder(b: Book)
    requires SoldOut(b)
    ensures var o := OrderOf(BUY_AT_100);
      && Accepts(b, BUY_AT_100) && Admits(b, 4) && OrderOK(o) && o.Remaining() == 1
      && o.id == 4 && o.side == Bid && o.kind == Limit && o.price == 100
    ensures 100 in b.asks.levels && b.asks.best == INVALID_PRICE
  {
    hide WF;
    assert 100 in b.asks.levels.Keys;
  }

  /** An ask of five at 100, a bid of five at 90, a market sell of five, and a limit buy at 100: it does
      not trade, and rests at the price of the ask. */
  lemma LimitBuyCrosses(h: HashOrder, b: Book)
    requires b == EmptyBook(b.capacity) && b.capacity >= 5
    ensures WF(b) && WF(Apply(h, b, ASK_FIVE).book)
    ensures var b2 := Apply(h, Apply(h, b, ASK_FIVE).book, BID_AT_90).book;
      WF(b2) && WF(Apply(h, b2, SELL_FIVE).book)
      && !Uncrossed(Apply(h, Apply(h, b2, SELL_FIVE).book, BUY_AT_100).book)
  {
    TwoSided(h, b);
    var b2 := Apply(h, Apply(h, b, ASK_FIVE).book, BID_AT_90).book;
    TidyParts(b2);
    hide WF, Tidy, BothRest, SoldOut, Uncrossed;
    SellsOutTheBids(h, b2);
    hide Apply;
    BuyCrosses(h, Apply(h, b2, SELL_FIVE).book);
  }

  lemma BuyCrosses(h: HashOrder, b: Book)
    requires WF(b) && SoldOut(b)
    ensures !Uncrossed(Apply(h, b, BUY_AT_100).book)
  {
    hide WF, Settle, Admits, OrderOK, Accepts, OrderOf, SoldOut, Uncrossed;
    BuyOneOrder(b);
    HiddenAskCrosses(h, b, OrderOf(BUY_AT_100), 100);
  }

  // ---------------------------------------------------------------- the next ask

  /** The ask at 105 is now the cached best, with a cheaper one behind it. */
  ghost predicate Exposed(b: Book) {
    && WF(b) && Admits(b, 5) && b.bids.levels == map[] && b.bids.best == INVALID_PRICE
    && b.asks.levels.Keys == {100, 105, INVALID_PRICE} && b.asks.best == 105
    && b.asks.levels[105] == Level([4], 1) && 4 in b.orders && b.orders[4] == OrderOf(ASK_AT_105)
  }

  lemma AskAccepted(b: Book)
    requires SoldOut(b)
    ensures var o := OrderOf(ASK_AT_105);
      && Accepts(b, ASK_AT_105) && Admits(b, 4) && OrderOK(o) && o.Remaining() == 1
      && o.id == 4 && o.side == Ask && o.kind == Limit && o.price == 105 && ShownQty(o) == 1
  {
    hide WF;
  }

  lemma AskPlaced(b: Book, o: Order)
    requires SoldOut(b) && Admits(b, 4) && OrderOK(o)
    requires o.id == 4 && o.side == Ask && o.price == 105 && ShownQty(o) == 1
    ensures var b' := Settlement.Placed(b, o);
      && b'.bids == b.bids && b'.orders == b.orders[4 := o] && b'.capacity == b.capacity
      && b'.asks.levels.Keys == {100, 105, INVALID_PRICE} && b'.asks.best == 105 && b'.asks.levels[105] == Level([4], 1)
  {
    hide WF, OrderOK, Admits;
    var none: seq<OrderId> := [];
    assert none + [4] == [4];
  }

  lemma AskRests(b: Book, o: Order)
    requires SoldOut(b) && o == OrderOf(ASK_AT_105)
    requires Admits(b, 4) && OrderOK(o) && o.id == 4 && o.side == Ask && o.price == 105 && ShownQty(o) == 1
    ensures WF(b) && Exposed(Settlement.Placed(b, o))
  {
    hide WF, OrderOK, Settlement.Placed, OrderOf;
    AskPlaced(b, o);
    PlacedAskWF(b, o);
  }

  lemma PlacedAskWF(b: Book, o: Order)
    requires WF(b) && Admits(b, o.id) && OrderOK(o)
    ensures WF(Settlement.Placed(b, o))
  {
    InsertWF(b, o, ShownQty(o));
  }

  lemma NextAskShows(h: HashOrder, b: Book)
    requires SoldOut(b)
    ensures WF(b) && Exposed(Apply(h, b, ASK_AT_105).book)
  {
    hide WF, Settle, Settlement.Placed, OrderOK, Admits, Exposed, Accepts;
    AskAccepted(b);
    var o := OrderOf(ASK_AT_105);
    AskRests(b, o);
    hide OrderOf;
    NotCrossingRests(h, b, o);
  }

  /** An ask of five at 100, a bid of five at 90, a market sell of five, and an ask of one at 105. */
  lemma ExposedRun(h: HashOrder, b: Book)
    requires b == EmptyBook(b.capacity) && b.capacity >= 5
    ensures WF(b) && WF(Apply(h, b, ASK_FIVE).book)
    ensures var b2 := Apply(h, Apply(h, b, ASK_FIVE).book, BID_AT_90).book;
      WF(b2) && WF(Apply(h, b2, SELL_FIVE).book) && Exposed(Apply(h, Apply(h, b2, SELL_FIVE).book, ASK_AT_105).book)
  {
    TwoSided(h, b);
    var b2 := Apply(h, Apply(h, b, ASK_FIVE).book, BID_AT_90).book;
    TidyParts(b2);
    hide Apply, Tidy, BothRest, Admits, Exposed;
    SellsOutTheBids(h, b2);
    NextAskShows(h, Apply(h, b2, SELL_FIVE).book);
  }

  // ---------------------------------------------------------------- a killed market sell

  lemma SellThreeAccepted(b: Book)
    requires Admits(b, 5)
    ensures var o := OrderOf(SELL_THREE);
      && Accepts(b, SELL_THREE) && Entering(o) && OrderOK(o) && o.Remaining() == 3
      && o.id == 5 && o.side == Ask && o.kind.Market?
  {
    hide Admits;
  }

  lemma NothingFaces(b: Book, o: Order)
    requires b.bids == Ladder(map[], INVALID_PRICE) && o.side == Ask
    ensures CacheOK(Bid, b.bids) && Facing(b, o) == 0
  {
  }

  lemma KilledSellLeaves(h: HashOrder, b: Book)
    requires Exposed(b)
    ensures var asks := Apply(h, b, SELL_THREE).book.asks;
      asks.levels == b.asks.levels && b.asks.best == 105 && asks.best == INVALID_PRICE
  {
    assert b.bids == Ladder(map[], INVALID_PRICE) && INVALID_PRICE in b.asks.levels.Keys;
    var o := OrderOf(SELL_THREE);
    hide WF, Admits, OrderOK, Settle, Accepts, Entering, CacheOK, Facing;
    SellThreeAccepted(b);
    hide OrderOf;
    NothingFaces(b, o);
    MarketStaysIffFilled(h, b, o);
    KilledSellHides(h, b, o);
  }

  /** An ask of five at 100, a bid of five at 90, a market sell of five, an ask of one at 105, and a
      market sell of three that finds no bid and is killed: the asks at 100 and 105 still rest, and
      the cache that had shown 105 shows none. */
  lemma KilledSellHidesTheAsks(h: HashOrder, b: Book)
    requires b == EmptyBook(b.capacity) && b.capacity >= 5
    ensures WF(b) && WF(Apply(h, b, ASK_FIVE).book)
    ensures var b2 := Apply(h, Apply(h, b, ASK_FIVE).book, BID_AT_90).book;
      WF(b2) && WF(Apply(h, b2, SELL_FIVE).book) &&
      var b4 := Apply(h, Apply(h, b2, SELL_FIVE).book, ASK_AT_105).book;
      && WF(b4) && Exposed(b4)
      && Apply(h, b4, SELL_THREE).book.asks == b4.asks.(best := INVALID_PRICE)
  {
    ExposedRun(h, b);
    hide WF, Apply, Exposed, Admits;
    var b2 := Apply(h, Apply(h, b, ASK_FIVE).book, BID_AT_90).book;
    KilledSellLeaves(h, Apply(h, Apply(h, b2, SELL_FIVE).book, ASK_AT_105).book);
  }

  // ---------------------------------------------------------------- a buy that pays less as it goes

  lemma BuySixOrder(b: Book)
    requires Admits(b, 5)
    ensures var o := OrderOf(BUY_SIX);
      && Accepts(b, BUY_SIX) && OrderOK(o) && o.Remaining() == 6 && o.filled == 0
      && o.id == 5 && o.side == Bid && o.kind == Limit && o.price == 110
  {
    hide Admits;
  }

  const LEFT: set<Tick> := {INVALID_PRICE, 100}

  ghost predicate Buying(b: Book) {
    && WF(b) && 4 in b.orders && 5 in b.orders && b.orders[4] == OrderOf(ASK_AT_105)
    && b.orders[5] == OrderOf(BUY_SIX)
    && b.asks.levels.Keys == {100, 105, INVALID_PRICE} && b.asks.best == 105 && b.asks.levels[105] == Level([4], 1)
  }

  lemma BuyPlaced(b: Book)
    requires Exposed(b)
    ensures Buying(Settlement.Placed(b, OrderOf(BUY_SIX))) && Settlement.Placed(b, OrderOf(BUY_SIX)).scans == b.scans
  {
    var o := OrderOf(BUY_SIX);
    hide WF, Admits, OrderOK;
    BuySixOrder(b);
    PlacedAskWF(b, o);
  }

  lemma FirstTurn(b: Book)
    requires Buying(b)
    ensures WF(b) && CanMatch(b, 5) && FillOf(b, 5) == Fill(4, 5, 105, 1) && FillQty(b, 5) == 1 && MakerOf(b, 5) == 4
    ensures b.orders[4].Remaining() == 1 && b.orders[5].side == Bid
  {
    MakerRests(b, 5);
    hide WF;
  }

  lemma LevelEmptied(h: HashOrder, n: nat, l: Ladder)
    requires l.levels.Keys == {100, 105, INVALID_PRICE} && l.best == 105 && l.levels[105] == Level([4], 1)
    ensures var l' := Unqueued(h, n, Ask, Reduced(l, l.best, 1), 4, l.best, 0);
      l'.levels.Keys == LEFT && l'.best == Scan(Ask, h(n, LEFT))
  {
    var r := Reduced(l, l.best, 1);
    assert r.levels[105].queue[1..] == [];
    assert (r.levels - {105}).Keys == LEFT;
  }

  /** The ask at 105 is taken whole, and the rescan that follows meets 100 and the sentinel. */
  lemma AfterFirstTurn(h: HashOrder, b: Book)
    requires Buying(b)
    ensures CanMatch(b, 5) && var b' := MatchOnce(h, b, 5);
      && WF(b') && 5 in b'.orders && b'.orders[5] == Filled(OrderOf(BUY_SIX), 1)
      && b'.asks.levels.Keys == LEFT && b'.asks.best == Scan(Ask, h(b.scans, LEFT))
  {
    hide WF, MatchOnce, CanMatch, FillOf, MakerOf, FillQty, Unqueued, Reduced, Scan, OrderOf, OrderOK, OrdersOK;
    FirstTurn(b);
    LevelEmptied(h, b.scans, b.asks);
    MatchOnceWF(h, b, 5);
    TakerAfterOnce(h, b, 5);
    MatchOnceOpposite(h, b, 5);
  }

  /** What the second turn meets: the ask at 100, or, where the rescan met the sentinel last, no ask. */
  lemma RescanLeft(h: HashOrder, n: nat)
    ensures Scan(Ask, h(n, LEFT)) == if h(n, LEFT)[..] == [INVALID_PRICE, 100] then 100 else INVALID_PRICE
  {
    var xs := h(n, LEFT);
    TwoInOrder(xs);
    AskScanDependsOnOrder(100);
  }

  lemma TwoInOrder(xs: seq<Tick>)
    requires IsOrder(xs, LEFT)
    ensures xs == [INVALID_PRICE, 100] || xs == [100, INVALID_PRICE]
  {
    assert INVALID_PRICE in LEFT && 100 in LEFT;
    if |xs| > 2 {
      AmongTwo(xs[0], xs[1], xs[2]);
    }
  }

  lemma AmongTwo(p: Tick, q: Tick, r: Tick)
    requires p in LEFT && q in LEFT && r in LEFT
    ensures p == q || q == r || p == r
  {
  }

  lemma SecondTurn(h: HashOrder, b: Book)
    requires WF(b) && 5 in b.orders && b.orders[5] == Filled(OrderOf(BUY_SIX), 1)
    requires b.asks.levels.Keys == LEFT && b.asks.best in LEFT
    ensures var fills := Match(h, b, 5).fills;
      if b.asks.best == 100 then fills != [] && fills[0].price == 100 else fills == []
  {
    hide WF, Match;
    if b.asks.best == 100 {
      QueueHasOne(b, 100);
    }
    FirstFillPrice(h, b, 5);
  }

  lemma QueueHasOne(b: Book, p: Tick)
    requires WF(b) && p in b.asks.levels
    ensures b.asks.levels[p].queue != []
  {
    assert LevelOK(Ask, p, b.asks.levels[p].queue, b.orders);
  }

  lemma BuyMatched(h: HashOrder, b: Book)
    requires Buying(b)
    ensures WF(b) && var fills := Match(h, b, 5).fills;
      && fills != [] && fills[0].price == 105
      && if h(b.scans, LEFT) == [INVALID_PRICE, 100] then |fills| > 1 && fills[1].price == 100 else |fills| == 1
  {
    hide WF, MatchOnce, Match, CanMatch, FillOf, OrderOf, Scan;
    FirstTurn(b);
    AfterFirstTurn(h, b);
    RescanLeft(h, b.scans);
    MatchUnfolds(h, b, 5);
    SecondTurn(h, MatchOnce(h, b, 5));
  }

  /** The buy of six at 110 takes the ask at 105 first. Whether it then finds the cheaper one at 100,
      and so pays less as it goes, is up to the hash order of the rescan. */
  lemma BuyPaysLessIff(h: HashOrder, b: Book)
    requires Exposed(b)
    ensures WF(b) && var fills := Apply(h, b, BUY_SIX).fills;
      && fills != [] && fills[0].price == 105
      && (!Worsening(Ask, FillPrices(fills)) <==> h(b.scans, LEFT) == [INVALID_PRICE, 100])
      && (!Worsening(Ask, FillPrices(fills)) ==> |fills| > 1 && fills[1].price == 100)
  {
    var o := OrderOf(BUY_SIX);
    hide WF, Admits, OrderOK, Match, Settle, OrderOf, Settlement.Placed, Accepts, Buying;
    BuySixOrder(b);
    BuyPlaced(b);
    SettledOrders(h, b, o);
    BuyMatched(h, Settlement.Placed(b, o));
    PricesFall(Apply(h, b, BUY_SIX).fills);
  }

  lemma PricesFall(fills: seq<Fill>)
    requires fills != [] && fills[0].price == 105 && (|fills| > 1 ==> fills[1].price == 100)
    ensures Worsening(Ask, FillPrices(fills)) <==> |fills| == 1
  {
    var prices := FillPrices(fills);
    if |fills| > 1 {
      assert Better(Ask, prices[1], prices[0]);
    }
  }

  /** A hash map may hand out its keys so. */
  ghost const SENTINEL_FIRST: HashOrder :=
    (n: nat, keys: set<Tick>) => if keys == LEFT then [INVALID_PRICE, 100] else SomeOrder(keys)

  /** An ask of five at 100, a bid of five at 90, a market sell of five, an ask of one at 105, and a buy
      of six at 110: the prices it pays do not only get worse. */
  lemma BuyPaysLess(h: HashOrder, b: Book)
    requires b == EmptyBook(b.capacity) && b.capacity >= 5 && h == SENTINEL_FIRST
    ensures WF(b) && WF(Apply(h, b, ASK_FIVE).book)
    ensures var b2 := Apply(h, Apply(h, b, ASK_FIVE).book, BID_AT_90).book;
      WF(b2) && WF(Apply(h, b2, SELL_FIVE).book) &&
      var b4 := Apply(h, Apply(h, b2, SELL_FIVE).book, ASK_AT_105).book;
      && WF(b4) && var fills := Apply(h, b4, BUY_SIX).fills;
      |fills| > 1 && fills[0].price == 105 && fills[1].price == 100
  {
    ExposedRun(h, b);
    hide WF, Apply, Exposed, Admits;
    var b2 := Apply(h, Apply(h, b, ASK_FIVE).book, BID_AT_90).book;
    BuyPaysLessIff(h, Apply(h, Apply(h, b2, SELL_FIVE).book, ASK_AT_105).book);
  }
}
