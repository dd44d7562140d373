/** Concrete runs in which the engine does not do what its comments promise. The general statements,
    of which these are instances, say exactly when. */
module Departures {
  import opened Types
  import opened Queues
  import opened LimitOrderBook
  import opened BookInvariants
  import opened Matching
  import opened Settlement
  import opened Orderly
  import opened Totals
  import opened Engine
  import opened Priority
  import opened Execution
  import opened Caches
  import opened Runs

  const BID_AT_90: Command := NewOrder(2, Bid, Limit, 90, 5, 0)
  const TEN_SHOWING_FOUR: Command := NewOrder(1, Ask, Iceberg, 100, 10, 4)
  const BUY_FIVE: Command := NewOrder(2, Bid, Limit, 100, 5, 0)

  /** An ask at 100 and a bid at 90 that do not meet. */
  lemma TwoSided(h: HashOrder, b: Book)
    requires b == EmptyBook(b.capacity) && b.capacity >= 2
    ensures WF(b) && WF(Apply(h, b, ASK_FIVE).book)
    ensures var b2 := Apply(h, Apply(h, b, ASK_FIVE).book, BID_AT_90).book;
      Tidy(b2) && b2.capacity == b.capacity && BothRest(b2)
  {
    FirstCommand(h, b);
    OneAskRests(h, b);
    OneAskBook(b);
    var b1 := Apply(h, b, ASK_FIVE).book;
    assert b1.asks.best == 100;
    TidyParts(b1);
    OrderlyStep(h, b1, BID_AT_90);
    hide WF, Tidy, Admits, Facing, Insert, BothRest;
    SecondRests(h, b1);
  }

  ghost predicate BothRest(b: Book) {
    && b.asks.best == 100 && b.asks.levels == map[100 := Level([1], 5)]
    && b.bids.levels == map[90 := Level([2], 5)]
    && b.orders == map[1 := OrderOf(ASK_FIVE), 2 := OrderOf(BID_AT_90)]
  }

  lemma SecondRests(h: HashOrder, b: Book)
    requires WF(b) && Admits(b, 2) && b.asks.best == 100 && b.bids.levels == map[]
    requires b.asks.levels == map[100 := Level([1], 5)] && b.orders == map[1 := OrderOf(ASK_FIVE)]
    ensures var b' := Apply(h, b, BID_AT_90).book; BothRest(b') && b'.capacity == b.capacity
  {
    var o := OrderOf(BID_AT_90);
    OrderOfOK(BID_AT_90);
    NotCrossingRests(h, b, o);
    hide WF, Admits, Settle, OrderOK;
    BidPlaced(b);
  }

  lemma BidPlaced(b: Book)
    requires b.bids.levels == map[]
    ensures var o := OrderOf(BID_AT_90); var b' := Settlement.Placed(b, o);
      && b'.bids.levels == map[90 := Level([2], 5)] && b'.asks == b.asks
      && b'.orders == b.orders[2 := o] && b'.capacity == b.capacity
  {
    var none: seq<OrderId> := [];
    assert none + [2] == [2];
  }

  /** A modify that moves the bid to 100 leaves the book crossed: it re-adds without matching. */
  lemma ModifyCanCross(h: HashOrder, b: Book)
    requires b == EmptyBook(b.capacity) && b.capacity >= 2
    ensures WF(b) && WF(Apply(h, b, ASK_FIVE).book)
    ensures var b2 := Apply(h, Apply(h, b, ASK_FIVE).book, BID_AT_90).book;
      WF(b2) && !Tidy(Apply(h, b2, ModifyOrder(2, 100, 5)).book)
  {
    TwoSided(h, b);
    hide Settle, Accepts;
    RaisedBidCrosses(h, Apply(h, Apply(h, b, ASK_FIVE).book, BID_AT_90).book);
  }

  lemma RaisedBidCrosses(h: HashOrder, b: Book)
    requires Tidy(b) && BothRest(b)
    ensures WF(b) && !Tidy(Apply(h, b, ModifyOrder(2, 100, 5)).book)
  {
    hide WF, CacheOK, Tidy, Modify, BothRest;
    TidyParts(b);
    BidReaches(b);
    RepriceUncrossedIff(h, b, 2, 100, 5);
  }

  lemma BidReaches(b: Book)
    requires BothRest(b)
    ensures ModifyAllowed(b, 2, 5) && b.orders[2].side == Bid && b.orders[2].price == 90 && Reaches(b, Bid, 100)
  {
    assert OrderOf(BID_AT_90).Remaining() == 5;
  }

  // ---------------------------------------------------------------- hidden asks

  const SELL_FIVE: Command := NewOrder(3, Ask, Market, 0, 5, 0)
  const BUY_AGAIN: Command := NewOrder(4, Bid, Market, 0, 5, 0)

  /** The bid at 90 is just enough for a market sell of five. */
  lemma BidFaces(b: Book)
    requires BothRest(b)
    ensures Facing(b, OrderOf(SELL_FIVE)) == 5
  {
    OneLevelLine(Bid, 90, 2, b.bids.levels, Terms(OrderOf(SELL_FIVE)));
    assert Quotes(b.orders, [2]) == [QuoteOf(OrderOf(BID_AT_90))];
    OneQuote(QuoteOf(OrderOf(BID_AT_90)));
    hide Line, Quotes, SumRem;
  }

  lemma SellAccepted(b: Book)
    requires BothRest(b) && b.capacity >= 4
    ensures Accepts(b, SELL_FIVE) && Entering(OrderOf(SELL_FIVE)) && OrderOf(SELL_FIVE).id == 3
  {
    assert b.orders.Keys == {1, 2};
    assert |b.orders.Keys| == 2;
  }

  /** Settling an order brings in no other order and takes no more room than the order itself. */
  lemma SettledKeys(h: HashOrder, b: Book, o: Order)
    requires WF(b) && Admits(b, o.id) && OrderOK(o)
    ensures var b' := Settle(h, b, o).book;
      b'.orders.Keys <= b.orders.Keys + {o.id} && |b'.orders| <= |b.orders| + 1 && b'.capacity == b.capacity
  {
    var b1, b' := Settlement.Placed(b, o), Settle(h, b, o).book;
    SettleWF(h, b, o);
    SettledOrders(h, b, o);
    hide WF, Settle, Match, OrderOK;
    forall x | x in b'.orders
      ensures x in b1.orders
    {
      MatchAccounts(h, b1, o.id, x);
    }
    KeysBound(b'.orders.Keys, b.orders.Keys, o.id);
  }

  lemma KeysBound(a: set<OrderId>, b: set<OrderId>, x: OrderId)
    requires a <= b + {x} && x !in b
    ensures |a| <= |b| + 1
  {
    SubsetSize(a, b + {x});
    assert |b + {x}| == |b| + 1;
  }

  lemma TwoKeys(b: Book)
    requires BothRest(b)
    ensures b.orders.Keys == {1, 2} && |b.orders| == 2
  {
    assert |b.orders.Keys| == 2;
  }

  lemma BuyAccepted(b: Book)
    requires Admits(b, 4)
    ensures Accepts(b, BUY_AGAIN) && OrderOK(OrderOf(BUY_AGAIN)) && OrderOf(BUY_AGAIN).id == 4
    ensures OrderOf(BUY_AGAIN).side == Bid
  {
    hide Admits;
  }

  lemma RoomLeft(h: HashOrder, b: Book)
    requires WF(b) && BothRest(b) && b.capacity >= 4 && Accepts(b, SELL_FIVE)
    ensures Admits(Apply(h, b, SELL_FIVE).book, 4)
  {
    hide WF, Settle, OrderOK, BothRest, Accepts;
    TwoKeys(b);
    SellOrder(b);
    hide OrderOf;
    SettledKeys(h, b, OrderOf(SELL_FIVE));
  }

  lemma SellOrder(b: Book)
    requires Accepts(b, SELL_FIVE)
    ensures Admits(b, 3) && OrderOK(OrderOf(SELL_FIVE)) && OrderOf(SELL_FIVE).id == 3
  {
    hide Admits;
  }

  /** An ask of five at 100, a bid of five at 90, a market sell of five, and a market buy of five: the
      sell fills, the ask at 100 rests untouched, and the buy finds nothing. */
  lemma MarketSellHidesTheAsk(h: HashOrder, b: Book)
    requires b == EmptyBook(b.capacity) && b.capacity >= 4
    ensures WF(b) && WF(Apply(h, b, ASK_FIVE).book)
    ensures var b2 := Apply(h, Apply(h, b, ASK_FIVE).book, BID_AT_90).book;
      WF(b2) && 100 in b2.asks.levels &&
      var b3 := Apply(h, b2, SELL_FIVE).book;
      && WF(b3) && 100 in b3.asks.levels && b3.asks.levels[100] == b2.asks.levels[100]
      && Accepts(b3, BUY_AGAIN) && Apply(h, b3, BUY_AGAIN).fills == []
  {
    TwoSided(h, b);
    var b2 := Apply(h, Apply(h, b, ASK_FIVE).book, BID_AT_90).book;
    TidyParts(b2);
    BuyAfterSell(h, b2);
    hide WF, Apply, Tidy;
  }

  lemma BuyAfterSell(h: HashOrder, b: Book)
    requires Tidy(b) && BothRest(b) && b.capacity >= 4
    ensures WF(b) && 100 in b.asks.levels
    ensures var b' := Apply(h, b, SELL_FIVE).book;
      && WF(b') && 100 in b'.asks.levels && b'.asks.levels[100] == b.asks.levels[100]
      && Accepts(b', BUY_AGAIN) && Apply(h, b', BUY_AGAIN).fills == []
  {
    assert 100 in b.asks.levels;
    hide WF, CacheOK, Tidy, Facing, Settle, Admits, OrderOK, Entering, BothRest, OrderOf;
    TidyParts(b);
    BidFaces(b);
    SellAccepted(b);
    RoomLeft(h, b);
    var b' := Apply(h, b, SELL_FIVE).book;
    SpentSellHidesAsks(h, b, OrderOf(SELL_FIVE));
    hide Apply;
    BuyFindsNothing(h, b');
  }

  lemma BuyFindsNothing(h: HashOrder, b: Book)
    requires WF(b) && Admits(b, 4) && b.asks.best == INVALID_PRICE
    ensures Accepts(b, BUY_AGAIN) && Apply(h, b, BUY_AGAIN).fills == []
  {
    hide WF, Settle, Admits, OrderOK, OrderOf, Accepts;
    BuyAccepted(b);
    BuysSeeNoAsks(h, b, OrderOf(BUY_AGAIN));
  }

  /** A level that shows four of an iceberg of ten reports a total of four. */
  lemma IcebergTotalFallsShort(h: HashOrder, b: Book)
    requires b == EmptyBook(b.capacity) && b.capacity >= 1
    ensures WF(b) && Exact(b) && !Exact(Apply(h, b, TEN_SHOWING_FOUR).book)
  {
    EmptyIsExact(b);
    OrderOfOK(TEN_SHOWING_FOUR);
    hide WF, Exact, Settle, Admits, OrderOK, Insert;
    var o := OrderOf(TEN_SHOWING_FOUR);
    IcebergFields(b);
    hide ShownQty, OrderOf, Settlement.Placed;
    IcebergRests(h, b, o);
    InsertExactIff(b, o);
    assert Apply(h, b, TEN_SHOWING_FOUR).book == Settlement.Placed(b, o);
  }

  lemma IcebergFields(b: Book)
    requires forall id :: Admits(b, id)
    ensures var o := OrderOf(TEN_SHOWING_FOUR); ShownQty(o) == 4 && o.Remaining() == 10
    ensures Accepts(b, TEN_SHOWING_FOUR)
  {
    hide Admits;
    assert OrderOf(TEN_SHOWING_FOUR).kind.Iceberg?;
    assert ValidNew(Iceberg, 100, 10, 4);
    assert Admits(b, TEN_SHOWING_FOUR.id);
  }

  lemma EmptyIsExact(b: Book)
    requires b == EmptyBook(b.capacity) && b.capacity >= 1
    ensures WF(b) && Exact(b) && b.bids.best == INVALID_PRICE && forall id :: Admits(b, id)
  {
    EmptyWF(b.capacity);
  }

  lemma IcebergRests(h: HashOrder, b: Book, o: Order)
    requires WF(b) && Admits(b, o.id) && OrderOK(o) && o.side == Ask && b.bids.best == INVALID_PRICE
    requires o.Remaining() > 0 && !o.kind.Market?
    ensures Settle(h, b, o).book == Settlement.Placed(b, o)
  {
    hide WF, Admits, OrderOK, Settle, Insert;
    NotCrossingRests(h, b, o);
  }

  // ---------------------------------------------------------------- a negative total

  /** The iceberg, alone in the book but for a buy, shown with this total and filled so far. */
  ghost predicate IcebergAt(b: Book, total: int, filled: int) {
    && 1 in b.orders && b.orders[1] == Filled(OrderOf(TEN_SHOWING_FOUR), filled)
    && b.asks == Ladder(map[100 := Level([1], total)], 100)
  }

  lemma TenPlaced(b: Book)
    requires b == EmptyBook(b.capacity)
    ensures var b1 := Settlement.Placed(b, OrderOf(TEN_SHOWING_FOUR));
      && IcebergAt(b1, 4, 0) && b1.orders.Keys == {1} && b1.capacity == b.capacity
  {
    var none: seq<OrderId> := [];
    assert none + [1] == [1];
  }

  lemma TenEntered(h: HashOrder, b: Book)
    requires b == EmptyBook(b.capacity) && b.capacity >= 2
    ensures WF(b) && var b1 := Apply(h, b, TEN_SHOWING_FOUR).book;
      WF(b1) && IcebergAt(b1, 4, 0) && Admits(b1, 2)
  {
    hide WF, Exact, Settle, OrderOK, Insert, OrderOf, Settlement.Placed, IcebergAt, Accepts, Admits;
    EmptyIsExact(b);
    OrderOfOK(TEN_SHOWING_FOUR);
    IcebergFields(b);
    IcebergRests(h, b, OrderOf(TEN_SHOWING_FOUR));
    ApplyWF(h, b, TEN_SHOWING_FOUR);
    TenPlaced(b);
    RoomForTwo(Apply(h, b, TEN_SHOWING_FOUR).book);
  }

  lemma RoomForTwo(b: Book)
    requires b.orders.Keys == {1} && b.capacity >= 2
    ensures Admits(b, 2)
  {
    assert |b.orders.Keys| == 1;
  }

  /** One turn against the iceberg takes a display slice, or what is wanted if that is less. */
  ghost predicate IcebergMet(b: Book, want: int, q: int) {
    && WF(b) && 1 in b.orders && 2 in b.orders && CanMatch(b, 2) && MakerOf(b, 2) == 1 && FillQty(b, 2) == q
    && b.orders[2] == Filled(OrderOf(BUY_FIVE), 5 - want) && b.orders[2].side == Bid
    && q < b.orders[1].Remaining()
  }

  lemma IcebergMeets(b: Book, total: int, filled: int, want: int, q: int)
    requires WF(b) && IcebergAt(b, total, filled) && 2 in b.orders && 0 < want && 0 <= filled < 6 && q == Min(want, 4)
    requires b.orders[2] == Filled(OrderOf(BUY_FIVE), 5 - want)
    ensures IcebergMet(b, want, q)
  {
    hide WF;
    MakerRests(b, 2);
  }

  lemma IcebergOrders(h: HashOrder, b: Book, total: int, filled: int, want: int, q: int)
    requires IcebergAt(b, total, filled) && IcebergMet(b, want, q)
    ensures var b' := MatchOnce(h, b, 2);
      && 1 in b'.orders && b'.orders[1] == Filled(OrderOf(TEN_SHOWING_FOUR), filled + q)
      && 2 in b'.orders && b'.orders[2] == Filled(OrderOf(BUY_FIVE), 5 - want + q)
  {
    hide WF, MatchOnce, CanMatch, FillQty, MakerOf, OrderOf;
    MatchOnceOrders(h, b, 2);
  }

  lemma IcebergLadder(h: HashOrder, b: Book, total: int, filled: int, want: int, q: int)
    requires IcebergAt(b, total, filled) && IcebergMet(b, want, q)
    ensures MatchOnce(h, b, 2).asks == Ladder(map[100 := Level([1], total - q)], 100)
  {
    hide WF, MatchOnce, CanMatch, FillQty, MakerOf, OrderOf;
    MatchOnceOpposite(h, b, 2);
  }

  lemma IcebergTurn(h: HashOrder, b: Book, total: int, filled: int, want: int, q: int)
    requires WF(b) && IcebergAt(b, total, filled) && 2 in b.orders && 0 < want && 0 <= filled < 6 && q == Min(want, 4)
    requires b.orders[2] == Filled(OrderOf(BUY_FIVE), 5 - want)
    ensures CanMatch(b, 2) && var b' := MatchOnce(h, b, 2);
      && WF(b') && IcebergAt(b', total - q, filled + q)
      && 2 in b'.orders && b'.orders[2] == Filled(OrderOf(BUY_FIVE), 5 - want + q)
      && Match(h, b, 2).book == Match(h, b', 2).book
  {
    hide WF, MatchOnce, OrderOf, Match, FillQty, MakerOf;
    IcebergMeets(b, total, filled, want, q);
    IcebergOrders(h, b, total, filled, want, q);
    IcebergLadder(h, b, total, filled, want, q);
    MatchUnfolds(h, b, 2);
  }

  /** Five are taken from the iceberg in two turns: the total has paid for the hidden part. */
  lemma IcebergMatched(h: HashOrder, b: Book)
    requires WF(b) && IcebergAt(b, 4, 0) && 2 in b.orders && b.orders[2] == OrderOf(BUY_FIVE)
    ensures IcebergAt(Match(h, b, 2).book, -1, 5)
  {
    hide WF, MatchOnce, IcebergAt;
    IcebergTurn(h, b, 4, 0, 5, 4);
    var b' := MatchOnce(h, b, 2);
    IcebergTurn(h, b', 0, 4, 1, 1);
    BoughtFive(MatchOnce(h, b', 2));
  }

  lemma BoughtFive(b: Book)
    requires 2 in b.orders && b.orders[2] == Filled(OrderOf(BUY_FIVE), 5)
    ensures !CanMatch(b, 2)
  {
  }

  /** An iceberg of ten that shows four, and a buy of five: five of the iceberg still rest, and the
      total of their level is minus one. */
  lemma TotalGoesNegative(h: HashOrder, b: Book)
    requires b == EmptyBook(b.capacity) && b.capacity >= 2
    ensures WF(b) && WF(Apply(h, b, TEN_SHOWING_FOUR).book)
    ensures var b2 := Apply(h, Apply(h, b, TEN_SHOWING_FOUR).book, BUY_FIVE).book;
      && b2.asks.levels == map[100 := Level([1], -1)] && Rem(b2, 1) == 5
  {
    hide WF, Apply, IcebergAt, Admits;
    TenEntered(h, b);
    var b1 := Apply(h, b, TEN_SHOWING_FOUR).book;
    FiveBought(h, b1);
    StillFive(Apply(h, b1, BUY_FIVE).book);
  }

  lemma StillFive(b: Book)
    requires IcebergAt(b, -1, 5)
    ensures b.asks.levels == map[100 := Level([1], -1)] && Rem(b, 1) == 5
  {
  }

  lemma FiveBought(h: HashOrder, b: Book)
    requires WF(b) && IcebergAt(b, 4, 0) && Admits(b, 2)
    ensures IcebergAt(Apply(h, b, BUY_FIVE).book, -1, 5)
  {
    hide WF, Settle, Match, OrderOK, Settlement.Placed, Admits, Accepts, Leaves;
    var o := OrderOf(BUY_FIVE);
    BuyFiveEnters(b);
    hide OrderOf;
    PlacedKeepsOpposite(b, o);
    SettledOrders(h, b, o);
    IcebergMatched(h, Settlement.Placed(b, o));
    OppositeSettled(h, b, o);
  }

  lemma BuyFiveEnters(b: Book)
    requires Admits(b, 2)
    ensures var o := OrderOf(BUY_FIVE); Accepts(b, BUY_FIVE) && OrderOK(o) && o.id == 2 && o.side == Bid
  {
    hide Admits;
  }
}
