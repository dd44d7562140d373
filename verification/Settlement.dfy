/** process_new_order on book values: insert the order on its own side, match it, and decide whether
    it stays. What it does to both sides, and what a market order leaves behind. */
module Settlement {
  import opened Types
  import opened Queues
  import opened LimitOrderBook
  import opened BookInvariants
  import opened Matching
  import opened Execution

  predicate ValidNew(kind: Kind, price: Tick, qty: int, display: int) {
    && qty > 0
    && (kind.Limit? ==> price > 0)
    && (kind.Iceberg? ==> price > 0 && display > 0)
  }

  /** The worst price for the taker, so that a market order always crosses. For sells it is the
      sentinel INVALID_PRICE. */
  function MarketPrice(s: Side): Tick {
    if s.Bid? then MAX_TICK else MIN_TICK
  }

  function Incoming(id: OrderId, s: Side, kind: Kind, price: Tick, qty: int, display: int, ts: nat): Order {
    match kind
    case Limit => LimitOrder(id, s, price, qty, ts)
    case Market => LimitOrder(id, s, MarketPrice(s), qty, ts).(kind := Market)
    case Iceberg => IcebergOrder(id, s, price, qty, display, ts)
  }

  function Placed(b: Book, o: Order): Book {
    Insert(b, o, ShownQty(o))
  }

  /** Which orders are taken out after matching: a limit or iceberg order that is fully filled, but
      a market order only if it is not. */
  predicate Leaves(o: Order) {
    if o.kind.Market? then o.Remaining() > 0 else o.Remaining() <= 0
  }

  function Settle(h: HashOrder, b: Book, o: Order): MatchResult
    requires WF(b) && Admits(b, o.id) && OrderOK(o)
  {
    InsertWF(b, o, ShownQty(o));
    var r := Match(h, Placed(b, o), o.id);
    MatchWF(h, Placed(b, o), o.id);
    if Leaves(r.book.orders[o.id]) then r.(book := Remove(h, r.book, o.id)) else r
  }

  lemma SettleWF(h: HashOrder, b: Book, o: Order)
    requires WF(b) && Admits(b, o.id) && OrderOK(o)
    ensures WF(Settle(h, b, o).book)
    ensures Settle(h, b, o).book.capacity == b.capacity
  {
    InsertWF(b, o, ShownQty(o));
    MatchWF(h, Placed(b, o), o.id);
    var r := Match(h, Placed(b, o), o.id);
    if Leaves(r.book.orders[o.id]) {
      RemoveWF(h, r.book, o.id);
    }
  }

  /** The shortcut for orders that do not cross: nothing to match, so they simply rest. */
  lemma NotCrossingRests(h: HashOrder, b: Book, o: Order)
    requires WF(b) && Admits(b, o.id) && OrderOK(o) && o.Remaining() > 0 && !o.kind.Market?
    requires var best := b.On(o.side.Opposite()).best; best == INVALID_PRICE || !o.Accepts(best)
    ensures WF(Placed(b, o)) && Settle(h, b, o) == MatchResult(Placed(b, o), [])
  {
    InsertWF(b, o, ShownQty(o));
    InsertFrame(b, o, ShownQty(o));
    hide WF, OrderOK, Admits, Insert;
    assert !CanMatch(Placed(b, o), o.id);
  }

  // ---------------------------------------------------------------- orders and quantities

  /** The matched order itself: only its filled quantity moved, by the fills emitted. */
  lemma TakerSettled(h: HashOrder, b: Book, o: Order)
    requires WF(b) && Admits(b, o.id) && OrderOK(o)
    ensures WF(Placed(b, o)) && o.id in Placed(b, o).orders
    ensures var r := Match(h, Placed(b, o), o.id);
      && WF(r.book)
      && o.id in r.book.orders
      && r.book.orders[o.id] == Filled(o, FilledIn(r.fills, o.id))
      && OrderOK(r.book.orders[o.id])
  {
    InsertWF(b, o, ShownQty(o));
    MatchWF(h, Placed(b, o), o.id);
    MatchAccounts(h, Placed(b, o), o.id, o.id);
  }

  lemma SettledOrders(h: HashOrder, b: Book, o: Order)
    requires WF(b) && Admits(b, o.id) && OrderOK(o)
    ensures WF(Placed(b, o)) && o.id in Placed(b, o).orders
    ensures var m, r := Match(h, Placed(b, o), o.id), Settle(h, b, o);
      && r.fills == m.fills
      && o.id in m.book.orders
      && r.book.orders == (if Leaves(m.book.orders[o.id]) then m.book.orders - {o.id} else m.book.orders)
      && (!Leaves(m.book.orders[o.id]) ==> r == m)
  {
    InsertWF(b, o, ShownQty(o));
    MatchWF(h, Placed(b, o), o.id);
    RemoveFrame(h, Match(h, Placed(b, o), o.id).book, o.id);
  }

  function Killed(o: Order, traded: int): int {
    if o.kind.Market? then Max(0, o.Remaining() - traded) else 0
  }

  /** Conservation for the new order: its quantity is what it traded, plus what rests, plus what was
      killed. */
  lemma TakerConserved(h: HashOrder, b: Book, o: Order)
    requires WF(b) && Admits(b, o.id) && OrderOK(o)
    ensures var r := Settle(h, b, o); var n := FilledIn(r.fills, o.id);
            o.Remaining() == n + Rem(r.book, o.id) + Killed(o, n)
  {
    TakerSettled(h, b, o);
    SettledOrders(h, b, o);
  }

  /** Conservation for everyone else: each order lost exactly what the fills traded for it. */
  lemma OthersConserved(h: HashOrder, b: Book, o: Order, x: OrderId)
    requires WF(b) && Admits(b, o.id) && OrderOK(o) && x != o.id
    ensures var r := Settle(h, b, o); Rem(b, x) == FilledIn(r.fills, x) + Rem(r.book, x)
  {
    SettledOrders(h, b, o);
    MatchAccounts(h, Placed(b, o), o.id, x);
  }

  // ---------------------------------------------------------------- the order's own side

  /** The same prices with the same queues, whatever the cache. */
  ghost predicate SameLines(l: Ladder, l': Ladder) {
    && l'.levels.Keys == l.levels.Keys
    && (forall p :: p in l.levels ==> l'.levels[p].queue == l.levels[p].queue)
  }

  /** The cached best after an order at price p has come and gone: if other orders are at p it is what
      entering made of it; if not, and entering had made it p, it is found again by the k-th scan. */
  function BestAfter(h: HashOrder, k: nat, s: Side, l: Ladder, p: Tick): Tick {
    if p in l.levels then Improve(s, l.best, p)
    else if Improve(s, l.best, p) == p then Scan(s, h(k, l.levels.Keys))
    else l.best
  }

  /** Adding an order, trading n of it and taking the rest out again restores the queues at any price
      and from any cache, and the totals as well if all of the order had been counted in its level. */
  lemma PushedThenUnqueued(h: HashOrder, k: nat, s: Side, l: Ladder, id: OrderId, p: Tick, shown: int, n: int, rem: int)
    requires p in l.levels ==> l.levels[p].queue != [] && NoDup(l.levels[p].queue) && id !in l.levels[p].queue
    ensures var l' := Unqueued(h, k, s, Reduced(Pushed(s, l, id, p, shown), p, n), id, p, rem);
      && SameLines(l, l')
      && (shown == n + rem ==> l'.levels == l.levels)
      && l'.best == BestAfter(h, k, s, l, p)
  {
    var mid := Reduced(Pushed(s, l, id, p, shown), p, n);
    var end := Unqueued(h, k, s, mid, id, p, rem);
    if p in l.levels {
      WithoutAppended(l.levels[p].queue, id);
      assert shown == n + rem ==> end.levels == l.levels;
    } else {
      assert mid.levels[p].queue == [id];
      assert mid.levels - {p} == l.levels;
    }
  }

  // ---------------------------------------------------------------- when the cached best is restored

  /** On bids the cache is the maximum in every well-formed book, so it always comes back. */
  lemma BidRestored(h: HashOrder, k: nat, l: Ladder, p: Tick)
    requires (l.best == INVALID_PRICE || l.best in l.levels) && BidCacheOK(l)
    ensures BestAfter(h, k, Bid, l, p) == l.best
  {
    RescanOK(h, k, Bid, l.levels);
    var again := Scan(Bid, h(k, l.levels.Keys));
    if l.best in l.levels {
      assert l.best <= again;
    }
    if again in l.levels {
      assert again <= l.best;
    }
  }

  /** The asks from which an order at price p, having come and gone, leaves the cached best as it was:
      the cache is right; or p does not touch it; or it is at the sentinel already, as is p, and an
      order rests there. */
  ghost predicate Untouched(l: Ladder, p: Tick) {
    || CacheOK(Ask, l)
    || (if p == INVALID_PRICE then l.best == INVALID_PRICE && INVALID_PRICE in l.levels
        else l.best != INVALID_PRICE && l.best <= p)
  }

  /** No rescan that meets the sentinel decides what becomes of the cache. */
  ghost predicate Decided(l: Ladder, p: Tick) {
    p == INVALID_PRICE || p in l.levels || INVALID_PRICE !in l.levels || Untouched(l, p)
  }

  /** On asks exactly then, unless the rescan is one that meets the sentinel. */
  lemma AskRestoredIff(h: HashOrder, k: nat, l: Ladder, p: Tick)
    requires l.best == INVALID_PRICE || l.best in l.levels
    requires Decided(l, p)
    ensures BestAfter(h, k, Ask, l, p) == l.best <==> Untouched(l, p)
  {
    RescanOK(h, k, Ask, l.levels);
    if INVALID_PRICE !in l.levels && CacheOK(Ask, l) {
      BestIsUnique(Ask, l.levels, l.best, Scan(Ask, h(k, l.levels.Keys)));
    }
  }

  lemma BestIsUnique(s: Side, levels: map<Tick, Level>, p: Tick, q: Tick)
    requires CacheOK(s, Ladder(levels, p)) && CacheOK(s, Ladder(levels, q))
    ensures p == q
  {
  }

  /** The own side while matching: the order at the back of its level, the total following its fills. */
  lemma OwnSideMatched(h: HashOrder, b: Book, o: Order)
    requires WF(b) && Admits(b, o.id) && OrderOK(o)
    ensures WF(Placed(b, o)) && o.id in Placed(b, o).orders
    ensures var r := Match(h, Placed(b, o), o.id);
            r.book.On(o.side) == Reduced(Pushed(o.side, b.On(o.side), o.id, o.price, ShownQty(o)), o.price,
                FilledIn(r.fills, o.id))
  {
    InsertWF(b, o, ShownQty(o));
    var b1 := Placed(b, o);
    MatchOwnSide(h, b1, o.id, o.side, o.price);
    MatchTaker(h, b1, o.id);
    AllTaken(Match(h, b1, o.id).fills, o.id);
    SumAs(Match(h, b1, o.id).fills, o.id, b1.On(o.side), o.price);
  }

  lemma SumAs(fills: seq<Fill>, x: OrderId, l: Ladder, p: Tick)
    requires FilledIn(fills, x) == SumQty(fills)
    ensures Reduced(l, p, FilledIn(fills, x)) == Reduced(l, p, SumQty(fills))
  {
  }

  lemma {:induction false} MatchTaker(h: HashOrder, b: Book, taker: OrderId)
    requires WF(b) && taker in b.orders
    ensures var fills := Match(h, b, taker).fills; forall k :: 0 <= k < |fills| ==> fills[k].taker == taker
    decreases b.orders[taker].Remaining() + |b.orders|
  {
    if CanMatch(b, taker) {
      MatchUnfolds(h, b, taker);
      MatchOnceWF(h, b, taker);
      MatchTaker(h, MatchOnce(h, b, taker), taker);
    }
  }

  lemma OwnSideLeft(h: HashOrder, b: Book, o: Order)
    requires WF(b) && Admits(b, o.id) && OrderOK(o)
    requires o.id !in Settle(h, b, o).book.orders
    ensures var r := Settle(h, b, o);
      exists k, n, rem :: o.Remaining() == n + rem && r.book.On(o.side)
        == Unqueued(h, k, o.side, Reduced(Pushed(o.side, b.On(o.side), o.id, o.price, ShownQty(o)), o.price, n), o.id,
            o.price, rem)
  {
    TakerSettled(h, b, o);
    OwnSideMatched(h, b, o);
    SettledOrders(h, b, o);
    var m := Match(h, Placed(b, o), o.id);
    var n, rem := FilledIn(m.fills, o.id), m.book.orders[o.id].Remaining();
    RemoveFrame(h, m.book, o.id);
    hide WF, Admits, OrderOK, Match, Insert, Pushed, Reduced, Unqueued, Remove, ShownQty;
    assert o.Remaining() == n + rem;
    assert Settle(h, b, o).book.On(o.side) == Unqueued(h, m.book.scans, o.side, m.book.On(o.side), o.id, o.price, rem);
  }

  /** The own side of an order that leaves after matching, be it a killed market order or a filled
      limit order: the queues are exactly as they were, the totals too unless it is an iceberg, and the
      cached best is what coming and going makes of it. */
  lemma LeavesNoTrace(h: HashOrder, b: Book, o: Order)
    requires WF(b) && Admits(b, o.id) && OrderOK(o) && o.filled == 0
    requires o.id !in Settle(h, b, o).book.orders
    ensures var l, l' := b.On(o.side), Settle(h, b, o).book.On(o.side);
      && SameLines(l, l')
      && (!o.kind.Iceberg? ==> l'.levels == l.levels)
      && exists k :: l'.best == BestAfter(h, k, o.side, l, o.price)
  {
    var l := b.On(o.side);
    assert SideOK(o.side, l, b.orders);
    if o.price in l.levels {
      assert LevelOK(o.side, o.price, l.levels[o.price].queue, b.orders);
    }
    OwnSideLeft(h, b, o);
    var k, n, rem :| o.Remaining() == n + rem && Settle(h, b, o).book.On(o.side)
        == Unqueued(h, k, o.side, Reduced(Pushed(o.side, l, o.id, o.price, ShownQty(o)), o.price, n), o.id, o.price,
            rem);
    hide WF, Settle, Pushed, Reduced, Unqueued, BestAfter;
    PushedThenUnqueued(h, k, o.side, l, o.id, o.price, ShownQty(o), n, rem);
  }

  /** Whether it is restored: on bids always; on asks exactly where the cache is untouched. */
  lemma LeavesBestIff(h: HashOrder, b: Book, o: Order)
    requires WF(b) && Admits(b, o.id) && OrderOK(o) && o.filled == 0
    requires o.id !in Settle(h, b, o).book.orders
    ensures var l, best := b.On(o.side), Settle(h, b, o).book.On(o.side).best;
      && (o.side.Bid? ==> best == l.best)
      && (o.side.Ask? && Decided(l, o.price) ==> (best == l.best <==> Untouched(l, o.price)))
      && (CacheOK(o.side, l) ==> best == l.best)
  {
    var l := b.On(o.side);
    assert SideOK(o.side, l, b.orders);
    LeavesNoTrace(h, b, o);
    var k :| Settle(h, b, o).book.On(o.side).best == BestAfter(h, k, o.side, l, o.price);
    hide WF, Settle, BestAfter, CacheOK;
    if o.side.Bid? {
      BidRestored(h, k, l, o.price);
    } else if Decided(l, o.price) {
      AskRestoredIff(h, k, l, o.price);
    }
  }

  lemma LeavesQueues(h: HashOrder, b: Book, o: Order)
    requires WF(b) && Admits(b, o.id) && OrderOK(o) && o.filled == 0
    requires o.id !in Settle(h, b, o).book.orders && CacheOK(o.side, b.On(o.side))
    ensures SameQueues(b.On(o.side), Settle(h, b, o).book.On(o.side))
  {
    hide WF, OrderOK, Admits, Settle, CacheOK;
    LeavesNoTrace(h, b, o);
    LeavesBestIff(h, b, o);
  }

  /** The frame of a market order that leaves a remainder. A buy restores the bids exactly, in every
      book. A sell restores the asks exactly if and only if the ask cache is right, or is at the sentinel
      with an order resting there; otherwise it puts the cache at the sentinel, and hides the asks. */
  lemma MarketFrame(h: HashOrder, b: Book, o: Order)
    requires WF(b) && Admits(b, o.id) && OrderOK(o) && o.filled == 0 && o.kind.Market? && o.price == MarketPrice(o.side)
    requires o.id !in Settle(h, b, o).book.orders
    ensures o.side.Bid? ==> Settle(h, b, o).book.bids == b.bids
    ensures o.side.Ask? ==> var asks := Settle(h, b, o).book.asks;
      && (asks == b.asks <==> CacheOK(Ask, b.asks) || (INVALID_PRICE in b.asks.levels && b.asks.best == INVALID_PRICE))
      && asks.levels == b.asks.levels
      && (INVALID_PRICE in b.asks.levels ==> asks.best == INVALID_PRICE)
      && (INVALID_PRICE !in b.asks.levels ==> CacheOK(Ask, asks))
  {
    LeavesNoTrace(h, b, o);
    LeavesBestIff(h, b, o);
    var l := b.On(o.side);
    var k :| Settle(h, b, o).book.On(o.side).best == BestAfter(h, k, o.side, l, o.price);
    RescanOK(h, k, Ask, b.asks.levels);
    hide WF, Settle, Scan;
  }
}
