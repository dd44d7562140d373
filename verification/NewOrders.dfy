/** What becomes of a new order, told field by field: when it is refused, what it trades first, and how it
    stands in the book if it stays. */
module NewOrders {
  import opened Types
  import opened LimitOrderBook
  import opened BookInvariants
  import opened Matching
  import opened Settlement
  import opened Engine
  import opened Caches

  // ---------------------------------------------------------------- entry

  /** A positive quantity, a positive price unless it is a market order, a positive display quantity if
      it is an iceberg, an id not in the book, and room in the pool. */
  ghost predicate Admissible(b: Book, c: Command)
    requires c.NewOrder?
  {
    && c.qty > 0 && (c.kind.Market? || c.price > 0) && (c.kind.Iceberg? ==> c.display > 0)
    && c.id !in b.orders && |b.orders| < b.capacity
  }

  /** How the order of command c stands in the book when n of it has traded. */
  ghost predicate StandsFor(c: Command, o: Order, n: int)
    requires c.NewOrder?
  {
    && o.id == c.id && o.side == c.side && o.kind == c.kind && o.qty == c.qty && o.filled == n && o.ts == 0
    && o.price == (if !c.kind.Market? then c.price
                   else if c.side.Bid? then 0x7FFF_FFFF_FFFF_FFFF else -0x8000_0000_0000_0000)
    && (if c.kind.Iceberg? then o.display == c.display && o.hidden == c.qty - c.display
        else o.display == 0 && o.hidden == 0)
  }

  /** Where it stands: last in the queue at its price, with its quantity, or its display quantity if it is
      an iceberg, added to the level's total and what it traded taken off again. */
  ghost predicate StandsLast(l: Ladder, l': Ladder, c: Command, p: Tick, n: int)
    requires c.NewOrder?
  {
    && LevelAt(l', p).queue == LevelAt(l, p).queue + [c.id]
    && LevelAt(l', p).total == LevelAt(l, p).total + (if c.kind.Iceberg? then c.display else c.qty) - n
    && (forall q :: q != p ==> LevelAt(l', q) == LevelAt(l, q))
  }

  /** A new order is refused, and changes nothing, exactly if it is not admissible. Otherwise it stays
      exactly if something is left of it, or, being a market order, if nothing is. */
  lemma NewOrderOutcome(h: HashOrder, b: Book, c: Command)
    requires WF(b) && c.NewOrder?
    ensures !Admissible(b, c) ==> Apply(h, b, c) == MatchResult(b, [])
    ensures Admissible(b, c) ==> var r := Apply(h, b, c); var n := FilledIn(r.fills, c.id);
      && 0 <= n <= c.qty
      && (c.id in r.book.orders <==> if c.kind.Market? then n == c.qty else n < c.qty)
      && (c.id in r.book.orders ==> var o := r.book.orders[c.id];
           StandsFor(c, o, n) && StandsLast(b.On(c.side), r.book.On(c.side), c, o.price, n))
  {
    if Admissible(b, c) {
      var o := OrderOf(c);
      hide WF, Settle, Match, StandsLast, FilledIn, OrderOf, Settlement.Placed, OrderOK, LevelAt;
      EntersAs(b, c);
      TakerSettled(h, b, o);
      SettledOrders(h, b, o);
      OwnSideMatched(h, b, o);
      FilledPart(c, o, FilledIn(Match(h, Settlement.Placed(b, o), c.id).fills, c.id));
      LastAt(b.On(c.side), c, o, FilledIn(Match(h, Settlement.Placed(b, o), c.id).fills, c.id));
    }
  }

  lemma EntersAs(b: Book, c: Command)
    requires c.NewOrder? && Admissible(b, c)
    ensures var o := OrderOf(c); Accepts(b, c) && Admits(b, c.id) && OrderOK(o) && StandsFor(c, o, 0) && o.id == c.id
  {
  }

  lemma FilledPart(c: Command, o: Order, n: int)
    requires c.NewOrder? && StandsFor(c, o, 0) && OrderOK(Filled(o, n))
    ensures StandsFor(c, Filled(o, n), n) && 0 <= n <= c.qty
    ensures Leaves(Filled(o, n)) <==> !(if c.kind.Market? then n == c.qty else n < c.qty)
  {
  }

  lemma LastAt(l: Ladder, c: Command, o: Order, n: int)
    requires c.NewOrder? && StandsFor(c, o, 0)
    ensures StandsLast(l, Reduced(Pushed(c.side, l, c.id, o.price, ShownQty(o)), o.price, n), c, o.price, n)
  {
  }

  // ---------------------------------------------------------------- the first trade

  /** The opposite side, and what a fill takes from its order m. */
  function Facing(b: Book, t: Order): Ladder {
    if t.side.Bid? then b.asks else b.bids
  }

  function Share(want: int, m: Order): int {
    var left := m.qty - m.filled;
    var slice := if m.kind.Iceberg? && m.display < left then m.display else left;
    if want < slice then want else slice
  }

  /** Something is wanted, a price is advertised, and it is accepted. */
  predicate Starts(t: Order, l: Ladder) {
    && t.qty - t.filled > 0 && l.best != -0x8000_0000_0000_0000
    && (t.kind.Market? || if t.side.Bid? then l.best <= t.price else l.best >= t.price)
  }

  /** A match begins exactly if something is wanted, the other side advertises a price and the order
      accepts it; and then with the order queued longest at that price, at that price, for what is wanted
      or what that order offers, an iceberg no more than a display slice. */
  lemma FirstTrade(h: HashOrder, b: Book, taker: OrderId)
    requires WF(b) && taker in b.orders
    ensures var t, fills := b.orders[taker], Match(h, b, taker).fills; var l := Facing(b, t);
      && (fills != [] <==> Starts(t, l))
      && (fills != [] ==>
           && l.best in l.levels && l.levels[l.best].queue != [] && l.levels[l.best].queue[0] in b.orders
           && var m := l.levels[l.best].queue[0];
              fills[0] == Fill(m, taker, l.best, Share(t.qty - t.filled, b.orders[m])))
  {
    hide WF, Match, CanMatch, FillOf, Share, Facing, Starts;
    FirstFillPrice(h, b, taker);
    StartsIff(b, taker);
    if CanMatch(b, taker) {
      FirstFill(b, taker);
      MatchUnfolds(h, b, taker);
    }
  }

  lemma StartsIff(b: Book, taker: OrderId)
    requires WF(b) && taker in b.orders
    ensures CanMatch(b, taker) <==> Starts(b.orders[taker], Facing(b, b.orders[taker]))
  {
    var s := b.orders[taker].side.Opposite();
    assert SideOK(s, b.On(s), b.orders);
    if b.On(s).best in b.On(s).levels {
      assert LevelOK(s, b.On(s).best, b.On(s).levels[b.On(s).best].queue, b.orders);
    }
    hide WF;
  }

  lemma FirstFill(b: Book, taker: OrderId)
    requires WF(b) && taker in b.orders && CanMatch(b, taker)
    ensures var t := b.orders[taker]; var l := Facing(b, t);
      && l.best in l.levels && l.levels[l.best].queue != [] && l.levels[l.best].queue[0] in b.orders
      && var m := l.levels[l.best].queue[0];
         FillOf(b, taker) == Fill(m, taker, l.best, Share(t.qty - t.filled, b.orders[m]))
  {
    MakerRests(b, taker);
    hide WF;
  }

  /** For a sell, and for a buy where the ask cache is right, no order of the other side has a better
      price than the first trade. */
  lemma FirstTradeIsBest(h: HashOrder, b: Book, taker: OrderId, p: Tick)
    requires WF(b) && taker in b.orders && Match(h, b, taker).fills != []
    requires b.orders[taker].side.Bid? ==> CacheOK(Ask, b.asks)
    ensures b.orders[taker].side.Bid? && p in b.asks.levels ==> Match(h, b, taker).fills[0].price <= p
    ensures b.orders[taker].side.Ask? && p in b.bids.levels ==> Match(h, b, taker).fills[0].price >= p
  {
    FirstFillPrice(h, b, taker);
  }

  /** In every book, a fill takes no more of an iceberg than a display slice, and never less than
      nothing. */
  lemma {:induction false} FillsAreSlices(h: HashOrder, b: Book, taker: OrderId, k: nat)
    requires WF(b) && taker in b.orders && k < |Match(h, b, taker).fills|
    ensures var f := Match(h, b, taker).fills[k]; f.maker in b.orders && SliceOf(b.orders, f)
    decreases b.orders[taker].Remaining() + |b.orders|
  {
    hide WF, Match, MatchOnce, CanMatch, FillOf, SliceOf, Share, Facing;
    FirstFillPrice(h, b, taker);
    MatchUnfolds(h, b, taker);
    if k == 0 {
      FirstFill(b, taker);
      FirstSlice(b, taker);
    } else {
      MatchOnceWF(h, b, taker);
      TakerAfterOnce(h, b, taker);
      FillsAreSlices(h, MatchOnce(h, b, taker), taker, k - 1);
      SliceBefore(h, b, taker, Match(h, MatchOnce(h, b, taker), taker).fills[k - 1]);
    }
  }

  lemma FirstSlice(b: Book, taker: OrderId)
    requires WF(b) && taker in b.orders && CanMatch(b, taker)
    ensures FillOf(b, taker).maker in b.orders && SliceOf(b.orders, FillOf(b, taker))
  {
    MakerRests(b, taker);
    hide WF;
  }

  lemma SliceBefore(h: HashOrder, b: Book, taker: OrderId, f: Fill)
    requires WF(b) && taker in b.orders && CanMatch(b, taker)
    requires f.maker in MatchOnce(h, b, taker).orders && SliceOf(MatchOnce(h, b, taker).orders, f)
    ensures f.maker in b.orders && SliceOf(b.orders, f)
  {
    hide WF, CanMatch, MatchOnce, FillQty;
    MatchOnceOrders(h, b, taker);
  }

  ghost predicate SliceOf(orders: map<OrderId, Order>, f: Fill)
    requires f.maker in orders
  {
    0 <= f.qty && (orders[f.maker].kind.Iceberg? ==> f.qty <= orders[f.maker].display)
  }
}
