/** Safety over whole runs of the engine, and the exact commands outside of which it is lost. */
module Runs {
  import opened Types
  import opened Queues
  import opened LimitOrderBook
  import opened BookInvariants
  import opened Matching
  import opened Priority
  import opened Execution
  import opened Settlement
  import opened Orderly
  import opened Totals
  import opened Depth
  import opened Engine
  import opened Ledger

  // ---------------------------------------------------------------- orderly runs

  /** Commands that keep an orderly book orderly. A market order must ask for more than is resting;
      a price change must stay short of the other side. Everything else is free. */
  ghost predicate OrderlyCommand(b: Book, c: Command) {
    match c
    case NewOrder(_, _, kind, _, qty, _) => Accepts(b, c) && kind.Market? ==> qty > Facing(b, OrderOf(c))
    case ModifyOrder(id, p, qty) =>
      ModifyAllowed(b, id, qty) && p != b.orders[id].price ==> p != INVALID_PRICE && !Reaches(b, b.orders[id].side, p)
    case CancelOrder(_) => true
    case Other => true
  }

  ghost predicate OrderlyRun(h: HashOrder, s: State, cs: seq<Command>)
    requires WF(s.book)
    decreases |cs|
  {
    cs == [] ||
    (OrderlyRun(h, s, cs[..|cs| - 1]) && OrderlyCommand(After(h, s, cs[..|cs| - 1]).book, cs[|cs| - 1]))
  }

  lemma OrderlyStep(h: HashOrder, b: Book, c: Command)
    requires Tidy(b) && OrderlyCommand(b, c)
    ensures Tidy(Apply(h, b, c).book)
  {
    hide WF, CacheOK, NoneSpent, Uncrossed, OrderOK, Admits, Settle, Modify, Cancel;
    match c
    case NewOrder(_, _, _, _, _, _) =>
      if Accepts(b, c) {
        OrderOfOK(c);
        SettleTidy(h, b, OrderOf(c));
      }
    case CancelOrder(id) => CancelTidy(h, b, id);
    case ModifyOrder(id, p, qty) => ModifyTidy(h, b, id, p, qty);
    case Other =>
  }

  lemma ModifyTidy(h: HashOrder, b: Book, id: OrderId, p: Tick, qty: int)
    requires Tidy(b) && OrderlyCommand(b, ModifyOrder(id, p, qty))
    ensures Tidy(Modify(h, b, id, p, qty))
  {
    hide Tidy;
    if ModifyAllowed(b, id, qty) {
      if p != b.orders[id].price {
        RepriceUncrossedIff(h, b, id, p, qty);
      } else {
        InPlaceTidy(b, id, qty);
      }
    }
  }

  /** After every orderly command of every orderly run the book is uncrossed, both caches name the
      best price of their side, and no spent order rests. */
  lemma {:induction false} OrderlyRunsStayTidy(h: HashOrder, capacity: nat, fees: Fees, cs: seq<Command>)
    requires WF(Start(capacity, fees).book) && OrderlyRun(h, Start(capacity, fees), cs)
    ensures Tidy(After(h, Start(capacity, fees), cs).book)
    decreases |cs|
  {
    var s := Start(capacity, fees);
    EmptyWF(capacity);
    if cs != [] {
      OrderlyRunsStayTidy(h, capacity, fees, cs[..|cs| - 1]);
      OrderlyStep(h, After(h, s, cs[..|cs| - 1]).book, cs[|cs| - 1]);
    }
  }

  // ---------------------------------------------------------------- exact totals

  ghost predicate NoIcebergs(b: Book) {
    forall x :: x in b.orders ==> !b.orders[x].kind.Iceberg?
  }

  ghost predicate IcebergFree(cs: seq<Command>) {
    forall i :: 0 <= i < |cs| && cs[i].NewOrder? ==> !cs[i].kind.Iceberg?
  }

  lemma SettleNoIcebergs(h: HashOrder, b: Book, o: Order)
    requires WF(b) && NoIcebergs(b) && Admits(b, o.id) && OrderOK(o) && !o.kind.Iceberg?
    ensures NoIcebergs(Settle(h, b, o).book)
  {
    hide WF, OrderOK, Settle, Match, Leaves;
    SettledOrders(h, b, o);
    var b1 := Settlement.Placed(b, o);
    forall x | x in Settle(h, b, o).book.orders
      ensures !Settle(h, b, o).book.orders[x].kind.Iceberg?
    {
      MatchAccounts(h, b1, o.id, x);
    }
  }

  lemma ModifyNoIcebergs(h: HashOrder, b: Book, id: OrderId, p: Tick, qty: int)
    requires WF(b) && NoIcebergs(b)
    ensures NoIcebergs(Modify(h, b, id, p, qty))
  {
    if ModifyAllowed(b, id, qty) {
      if p != b.orders[id].price {
        RepriceIsRemoveThenInsert(h, b, id, p, qty);
        RemoveFrame(h, b, id);
      } else {
        ModifyDownInPlace(b, id, qty);
      }
    }
  }

  lemma ExactStep(h: HashOrder, b: Book, c: Command)
    requires WF(b) && Exact(b) && NoIcebergs(b) && IcebergFree([c])
    ensures Exact(Apply(h, b, c).book) && NoIcebergs(Apply(h, b, c).book)
  {
    hide WF, Exact, OrderOK, Admits, Settle, Modify, Remove;
    assert [c][0] == c;
    match c
    case NewOrder(_, _, _, _, _, _) =>
      if Accepts(b, c) {
        OrderOfOK(c);
        SettleExact(h, b, OrderOf(c));
        SettleNoIcebergs(h, b, OrderOf(c));
      }
    case CancelOrder(id) =>
      if id in b.orders {
        RemoveExact(h, b, id);
        RemoveFrame(h, b, id);
      }
    case ModifyOrder(id, p, qty) =>
      ModifyExact(h, b, id, p, qty);
      ModifyNoIcebergs(h, b, id, p, qty);
    case Other =>
  }

  /** In every iceberg-free run, orderly or not, every level's total is exact. */
  lemma {:induction false} IcebergFreeRunsStayExact(h: HashOrder, capacity: nat, fees: Fees, cs: seq<Command>)
    requires WF(Start(capacity, fees).book) && IcebergFree(cs)
    ensures Exact(After(h, Start(capacity, fees), cs).book) && NoIcebergs(After(h, Start(capacity, fees), cs).book)
    decreases |cs|
  {
    var s := Start(capacity, fees);
    if cs != [] {
      var init, c := cs[..|cs| - 1], cs[|cs| - 1];
      assert IcebergFree(init) && IcebergFree([c]);
      IcebergFreeRunsStayExact(h, capacity, fees, init);
      ExactStep(h, After(h, s, init).book, c);
    }
  }

  // ---------------------------------------------------------------- what icebergs hide

  /** What command c pushes to price p on side s without counting it: of an iceberg, all but the
      display slice. */
  function HiddenBy(b: Book, c: Command, s: Side, p: Tick): int {
    match c
    case NewOrder(_, side, _, _, _, _) =>
      if Accepts(b, c) && side == s && OrderOf(c).price == p then Hidden(OrderOf(c)) else 0
    case ModifyOrder(id, q, qty) =>
      if ModifyAllowed(b, id, qty) && q != b.orders[id].price && b.orders[id].side == s && p == q
      then Hidden(Repriced(b.orders[id], q, qty)) else 0
    case _ => 0
  }

  /** What was hidden at price p on side s since the level there was made. */
  ghost function HiddenAt(h: HashOrder, st: State, cs: seq<Command>, s: Side, p: Tick): int
    requires WF(st.book)
    decreases |cs|
  {
    if cs == [] || p !in After(h, st, cs).book.On(s).levels then 0 else
    var init := cs[..|cs| - 1];
    HiddenAt(h, st, init, s, p) + HiddenBy(After(h, st, init).book, cs[|cs| - 1], s, p)
  }

  lemma DriftStep(h: HashOrder, b: Book, c: Command, s: Side, p: Tick)
    requires WF(b)
    ensures var b' := Apply(h, b, c).book;
      Off(b', s, p) == if p in b'.On(s).levels then Off(b, s, p) + HiddenBy(b, c, s, p) else 0
  {
    hide WF, Off, Hidden, Settle, Modify, Remove, Repriced, OrderOK;
    AbsentIsZero(b, s, p);
    match c
    case NewOrder(_, _, _, _, _, _) =>
      if Accepts(b, c) {
        OrderOfOK(c);
        SettleDrift(h, b, OrderOf(c), s, p);
      }
    case CancelOrder(id) =>
      if id in b.orders {
        RemoveDrift(h, b, id, s, p);
      }
    case ModifyOrder(id, q, qty) =>
      if ModifyAllowed(b, id, qty) {
        ModifyDrift(h, b, id, q, qty, s, p);
      } else {
        RefusedModify(h, b, id, q, qty);
      }
    case Other =>
  }

  /** Over every run of any commands, a level's total is the sum of what rests there less what was
      hidden there since the level was made. */
  lemma {:induction false} TotalsOverRuns(h: HashOrder, capacity: nat, fees: Fees, cs: seq<Command>, s: Side, p: Tick)
    requires WF(Start(capacity, fees).book)
    ensures var st := Start(capacity, fees); var b := After(h, st, cs).book;
      && Off(b, s, p) == HiddenAt(h, st, cs, s, p)
      && (p in b.On(s).levels ==>
           b.On(s).levels[p].total == QueueSum(b.orders, b.On(s).levels[p].queue) - HiddenAt(h, st, cs, s, p))
    decreases |cs|
  {
    var st := Start(capacity, fees);
    if cs != [] {
      var init, c := cs[..|cs| - 1], cs[|cs| - 1];
      TotalsOverRuns(h, capacity, fees, init, s, p);
      hide WF, HiddenBy, Apply, Start, QueueSum;
      DriftStep(h, After(h, st, init).book, c, s, p);
    }
  }

  lemma NothingHidden(h: HashOrder, capacity: nat, fees: Fees, cs: seq<Command>, s: Side, p: Tick)
    requires WF(Start(capacity, fees).book) && IcebergFree(cs)
    ensures HiddenAt(h, Start(capacity, fees), cs, s, p) == 0
  {
    IcebergFreeRunsStayExact(h, capacity, fees, cs);
    TotalsOverRuns(h, capacity, fees, cs, s, p);
    ExactIff(After(h, Start(capacity, fees), cs).book);
  }

  /** The book update broadcast in an orderly run: each side lists its ten best levels in strict order
      and zeros behind them, the first price is the advertised best, and each quantity is what rests
      there less what icebergs hide, which is nothing if there are none. */
  lemma SnapshotsAreTrue(h: HashOrder, capacity: nat, fees: Fees, cs: seq<Command>, s: Side)
    requires WF(Start(capacity, fees).book) && OrderlyRun(h, Start(capacity, fees), cs)
    ensures var st := Start(capacity, fees); var b := After(h, st, cs).book;
      var u, l := Snapshot(b), b.On(s);
      && Shown(u, s, l)
      && (CountOn(u, s) == 0 <==> BestOn(u, s) == INVALID_PRICE)
      && (CountOn(u, s) > 0 ==> PricesOn(u, s)[0] == BestOn(u, s))
      && (forall i :: 0 <= i < CountOn(u, s) ==>
           QtysOn(u, s)[i]
           == QueueSum(b.orders, l.levels[PricesOn(u, s)[i]].queue) - HiddenAt(h, st, cs, s, PricesOn(u, s)[i]))
      && (IcebergFree(cs) ==> forall p :: HiddenAt(h, st, cs, s, p) == 0)
  {
    var st := Start(capacity, fees);
    var b := After(h, st, cs).book;
    OrderlyRunsStayTidy(h, capacity, fees, cs);
    TidyParts(b);
    hide WF, After, CacheOK, Start, OrderlyRun, HiddenAt, Tidy, Snapshot;
    SnapshotShows(b, s);
    SnapshotReadsTheBook(b, s);
    var u, l := Snapshot(b), b.On(s);
    forall i | 0 <= i < CountOn(u, s)
      ensures QtysOn(u, s)[i]
           == QueueSum(b.orders, l.levels[PricesOn(u, s)[i]].queue) - HiddenAt(h, st, cs, s, PricesOn(u, s)[i])
    {
      TotalsOverRuns(h, capacity, fees, cs, s, PricesOn(u, s)[i]);
    }
    if IcebergFree(cs) {
      forall p
        ensures HiddenAt(h, st, cs, s, p) == 0
      {
        NothingHidden(h, capacity, fees, cs, s, p);
      }
    }
  }

  // ---------------------------------------------------------------- queue positions

  /** Leaving a queue: the order within it and every other queue are kept. */
  lemma UnqueuedPositions(h: HashOrder, n: nat, s: Side, l: Ladder, id: OrderId, at: Tick, rem: int)
    ensures var l' := Unqueued(h, n, s, l, id, at, rem);
      && LevelAt(l', at).queue == Without(LevelAt(l, at).queue, id)
      && (LevelAt(l', at).queue != [] ==> LevelAt(l', at).total == LevelAt(l, at).total - rem)
      && (forall q :: q != at ==> LevelAt(l', q) == LevelAt(l, q))
  {
  }

  lemma PushedPositions(s: Side, l: Ladder, id: OrderId, p: Tick, shown: int)
    ensures var l' := Pushed(s, l, id, p, shown);
      && LevelAt(l', p).queue == LevelAt(l, p).queue + [id]
      && LevelAt(l', p).total == LevelAt(l, p).total + shown
      && (forall q :: q != p ==> LevelAt(l', q) == LevelAt(l, q))
  {
  }

  /** A cancelled order leaves its queue and the book; nothing else moves. */
  lemma CancelKeepsPositions(h: HashOrder, b: Book, id: OrderId)
    requires WF(b) && id in b.orders
    ensures var o, b' := b.orders[id], Cancel(h, b, id); var l, l' := b.On(o.side), b'.On(o.side);
      && LevelAt(l', o.price).queue == Without(LevelAt(l, o.price).queue, id)
      && (LevelAt(l', o.price).queue != [] ==>
           LevelAt(l', o.price).total == LevelAt(l, o.price).total - (o.qty - o.filled))
      && (forall q :: q != o.price ==> LevelAt(l', q) == LevelAt(l, q))
      && b'.On(o.side.Opposite()) == b.On(o.side.Opposite())
      && b'.orders == b.orders - {id}
  {
    var o := b.orders[id];
    RemoveFrame(h, b, id);
    UnqueuedPositions(h, b.scans, o.side, b.On(o.side), id, o.price, o.Remaining());
    hide WF, Remove, Unqueued, LevelAt;
  }

  lemma RepricedIs(o: Order, p: Tick, qty: int)
    ensures var o' := Repriced(o, p, qty);
      && o'.id == o.id && o'.side == o.side && o'.price == p && o'.ts == o.ts && o'.Remaining() == qty
      && o'.qty == qty && o'.filled == 0
      && (if o.kind.Iceberg? then o'.kind.Iceberg? && o'.display == o.display && o'.hidden == qty - o.display
          else o'.kind.Limit? && o'.display == 0 && o'.hidden == 0)
      && ShownQty(o') == if o.kind.Iceberg? then o.display else qty
  {
  }

  /** A price change in terms of the two ladders and the id map. */
  lemma RepriceFrame(h: HashOrder, b: Book, id: OrderId, p: Tick, qty: int)
    requires WF(b) && ModifyAllowed(b, id, qty) && p != b.orders[id].price
    ensures var o := b.orders[id]; var o', b' := Repriced(o, p, qty), Modify(h, b, id, p, qty);
      && b'.orders == b.orders[id := o']
      && b'.On(o.side) == Pushed(o.side, Unqueued(h, b.scans, o.side, b.On(o.side), id, o.price, o.Remaining()), id,
          p, ShownQty(o'))
      && b'.On(o.side.Opposite()) == b.On(o.side.Opposite())
  {
    hide WF, Modify, Remove, Repriced, Pushed, Unqueued, Insert, ShownQty;
    var o := b.orders[id];
    var o' := Repriced(o, p, qty);
    RepriceIsRemoveThenInsert(h, b, id, p, qty);
    RepricedIs(o, p, qty);
    IdMatches(b, id);
    RemoveFrame(h, b, id);
    InsertFrame(Remove(h, b, id), o', ShownQty(o'));
    assert (b.orders - {id})[id := o'] == b.orders[id := o'];
  }

  /** A modify that names a known id, a positive quantity not above what is left, and another price: the
      order is never lost, has the new quantity left, nothing filled and its old time stamp. An iceberg
      stays one, with its old display quantity, and any other order is a limit order. It stands at the
      back of the new level, whose total grows by the display quantity of an iceberg and by the quantity
      of any other order; the old level's total falls by what was left. Every other order keeps its place. */
  lemma RepriceKeepsPositions(h: HashOrder, b: Book, id: OrderId, p: Tick, qty: int)
    requires WF(b) && id in b.orders && 0 < qty <= b.orders[id].qty - b.orders[id].filled && p != b.orders[id].price
    ensures var o, b' := b.orders[id], Modify(h, b, id, p, qty); var l, l' := b.On(o.side), b'.On(o.side);
      && b'.orders.Keys == b.orders.Keys
      && (forall x :: x in b.orders && x != id ==> b'.orders[x] == b.orders[x])
      && IsRepriced(o, b'.orders[id], p, qty)
      && LevelAt(l', p).queue == LevelAt(l, p).queue + [id]
      && LevelAt(l', p).total == LevelAt(l, p).total + (if o.kind.Iceberg? then o.display else qty)
      && LevelAt(l', o.price).queue == Without(LevelAt(l, o.price).queue, id)
      && (LevelAt(l', o.price).queue != [] ==>
           LevelAt(l', o.price).total == LevelAt(l, o.price).total - (o.qty - o.filled))
      && (forall q :: q != p && q != o.price ==> LevelAt(l', q) == LevelAt(l, q))
      && b'.On(o.side.Opposite()) == b.On(o.side.Opposite())
  {
    hide WF, Modify, Repriced, Pushed, Unqueued, LevelAt, ShownQty;
    var o := b.orders[id];
    var o' := Repriced(o, p, qty);
    RepriceFrame(h, b, id, p, qty);
    RepricedIs(o, p, qty);
    var l1 := Unqueued(h, b.scans, o.side, b.On(o.side), id, o.price, o.Remaining());
    UnqueuedPositions(h, b.scans, o.side, b.On(o.side), id, o.price, o.Remaining());
    PushedPositions(o.side, l1, id, p, ShownQty(o'));
  }

  /** What becomes of order o when it is modified to price p and quantity qty. */
  ghost predicate IsRepriced(o: Order, o': Order, p: Tick, qty: int) {
    && o'.id == o.id && o'.side == o.side && o'.price == p && o'.ts == o.ts && o'.qty == qty && o'.filled == 0
    && (if o.kind.Iceberg? then o'.kind.Iceberg? && o'.display == o.display && o'.hidden == qty - o.display
        else o'.kind.Limit? && o'.display == 0 && o'.hidden == 0)
  }

  /** Every other modify: an unknown id, a quantity that is not positive or more than is left, or both
      price and quantity as they are, change nothing; a smaller quantity at the same price leaves the
      order in its place, with its kind and display quantity, and takes the difference off the level. */
  lemma ModifyOtherwise(h: HashOrder, b: Book, id: OrderId, p: Tick, qty: int)
    requires WF(b) && (id in b.orders && 0 < qty <= b.orders[id].qty - b.orders[id].filled ==> p == b.orders[id].price)
    ensures var b' := Modify(h, b, id, p, qty);
      if id !in b.orders || qty <= 0 || qty >= b.orders[id].qty - b.orders[id].filled then b' == b
      else var o := b.orders[id]; var l, l' := b.On(o.side), b'.On(o.side);
        && b'.orders == b.orders[id := o.(qty := o.filled + qty)]
        && l'.best == l.best
        && LevelAt(l', p).queue == LevelAt(l, p).queue
        && (p in l.levels ==> LevelAt(l', p).total == LevelAt(l, p).total - (o.qty - o.filled - qty))
        && (forall q :: q != p ==> LevelAt(l', q) == LevelAt(l, q))
        && b'.On(o.side.Opposite()) == b.On(o.side.Opposite())
  {
    hide WF;
  }

  // ---------------------------------------------------------------- departures

  /** A market order leaves the book orderly exactly when it is not fully filled. */
  lemma MarketTidyIff(h: HashOrder, b: Book, o: Order)
    requires Tidy(b) && Admits(b, o.id) && OrderOK(o) && o.filled == 0 && o.Remaining() > 0 && o.kind.Market?
    ensures Tidy(Settle(h, b, o).book) <==> o.Remaining() > Facing(b, o)
  {
    MarketStaysIffFilled(h, b, o);
    if o.Remaining() > Facing(b, o) {
      SettleTidy(h, b, o);
    }
  }

  const ASK_FIVE: Command := NewOrder(1, Ask, Limit, 100, 5, 0)
  const BUY_FIVE: Command := NewOrder(2, Bid, Market, 0, 5, 0)

  lemma OneAskRests(h: HashOrder, b: Book)
    requires b == EmptyBook(b.capacity) && b.capacity >= 2
    ensures WF(b) && Admits(b, 1)
    ensures OrderOK(OrderOf(ASK_FIVE)) && Settle(h, b, OrderOf(ASK_FIVE)).book
        == Settlement.Placed(b, OrderOf(ASK_FIVE))
  {
    EmptyWF(b.capacity);
    NotCrossingRests(h, b, OrderOf(ASK_FIVE));
  }

  lemma OneAskFaces(b: Book)
    requires b == EmptyBook(b.capacity) && b.capacity >= 2
    ensures var b' := Settlement.Placed(b, OrderOf(ASK_FIVE)); Admits(b', 2) && Facing(b', OrderOf(BUY_FIVE)) == 5
  {
    OneAskBook(b);
    hide Settlement.Placed, Insert, OrderOf, SumRem, Quotes, Line;
    OneAskLiquidity(Settlement.Placed(b, OrderOf(ASK_FIVE)));
  }

  lemma OneAskLiquidity(b: Book)
    requires b.asks.levels == map[100 := Level([1], 5)] && b.orders == map[1 := OrderOf(ASK_FIVE)]
    ensures Facing(b, OrderOf(BUY_FIVE)) == 5
  {
    var levels: map<Tick, Level> := map[100 := Level([1], 5)];
    OneLevelLine(Ask, 100, 1, levels, Terms(OrderOf(BUY_FIVE)));
    assert Quotes(b.orders, [1]) == [QuoteOf(OrderOf(ASK_FIVE))];
    OneQuote(QuoteOf(OrderOf(ASK_FIVE)));
    hide Line, Quotes, SumRem;
  }

  lemma OneAskBook(b: Book)
    requires b == EmptyBook(b.capacity)
    ensures var b' := Settlement.Placed(b, OrderOf(ASK_FIVE));
      b'.asks.levels == map[100 := Level([1], 5)] && b'.orders == map[1 := OrderOf(ASK_FIVE)]
          && b'.capacity == b.capacity
  {
    var none: seq<OrderId> := [];
    assert none + [1] == [1];
  }

  lemma OneQuote(q: Quote)
    ensures SumRem([q]) == q.rem
  {
    assert [q][1..] == [];
  }

  lemma OneLevelLine(s: Side, p: Tick, id: OrderId, levels: map<Tick, Level>, terms: Order)
    requires levels == map[p := Level([id], 5)] && terms.kind.Market?
    ensures Line(s, levels, terms) == [id]
  {
    assert levels.Keys == {p};
    assert BestPrice(s, levels.Keys) == p;
    assert levels - {p} == map[];
    assert Line(s, map[], terms) == [];
  }

  /** The smallest run that shows it: one ask of five, one market buy of five, and the spent buy is
      still in the book. */
  lemma SpentMarketOrderRests(h: HashOrder, b: Book)
    requires b == EmptyBook(b.capacity) && b.capacity >= 2
    ensures WF(b) && WF(Apply(h, b, ASK_FIVE).book)
    ensures 2 in Apply(h, Apply(h, b, ASK_FIVE).book, BUY_FIVE).book.orders
  {
    hide Settle, WF, Tidy, Admits, Facing, OrderOK, Insert, Settlement.Placed, EmptyBook;
    FirstCommand(h, b);
    SecondCommand(h, Apply(h, b, ASK_FIVE).book);
  }

  lemma FirstCommand(h: HashOrder, b: Book)
    requires b == EmptyBook(b.capacity) && b.capacity >= 2
    ensures WF(b)
    ensures var b' := Apply(h, b, ASK_FIVE).book; Tidy(b') && Admits(b', 2) && Facing(b', OrderOf(BUY_FIVE)) == 5
  {
    hide Settle, WF, Tidy, Admits, Facing, OrderOK, Insert, Settlement.Placed, EmptyBook;
    EmptyTidy(b.capacity);
    TidyParts(b);
    OneAskRests(h, b);
    OneAskFaces(b);
    assert OrderlyCommand(b, ASK_FIVE);
    OrderlyStep(h, b, ASK_FIVE);
  }

  lemma SecondCommand(h: HashOrder, b: Book)
    requires Tidy(b) && Admits(b, 2) && Facing(b, OrderOf(BUY_FIVE)) == 5
    ensures WF(b) && 2 in Apply(h, b, BUY_FIVE).book.orders
  {
    hide Settle, WF, CacheOK, Tidy, Admits, Facing, OrderOK;
    TidyParts(b);
    OrderOfOK(BUY_FIVE);
    MarketStaysIffFilled(h, b, OrderOf(BUY_FIVE));
  }

  lemma EmptyTidy(capacity: nat)
    ensures Tidy(EmptyBook(capacity))
  {
    EmptyWF(capacity);
  }

  lemma TidyParts(b: Book)
    requires Tidy(b)
    ensures WF(b) && CacheOK(Bid, b.bids) && CacheOK(Ask, b.asks)
  {
  }

  // ---------------------------------------------------------------- fees

  function Notional(fills: seq<Fill>): int {
    if fills == [] then 0 else fills[0].price * fills[0].qty + Notional(fills[1..])
  }

  lemma {:induction false} NotionalConcat(a: seq<Fill>, b: seq<Fill>)
    ensures Notional(a + b) == Notional(a) + Notional(b)
  {
    if a == [] {
      assert a + b == b;
    } else {
      NotionalConcat(a[1..], b);
      assert (a + b)[1..] == a[1..] + b;
    }
  }

  /** The counters are those of n worth of trades at these rates. */
  predicate ChargedFor(c: Counters, fees: Fees, n: int) {
    c.rebates == n * fees.makerBps && c.takerFees == n * fees.takerBps
  }

  lemma Distributes(v: int, w: int, k: int)
    ensures (v + w) * k == v * k + w * k
  {
  }

  lemma ChargeOne(c: Counters, fees: Fees, f: Fill, v: int)
    requires ChargedFor(c, fees, v)
    ensures ChargedFor(Charge(c, fees, f), fees, v + f.price * f.qty)
  {
    Distributes(v, f.price * f.qty, fees.makerBps);
    Distributes(v, f.price * f.qty, fees.takerBps);
  }

  lemma {:induction false} ChargeAllOf(c: Counters, fees: Fees, fills: seq<Fill>, v: int, total: int)
    requires ChargedFor(c, fees, v) && total == v + Notional(fills)
    ensures ChargedFor(ChargeAll(c, fees, fills), fees, total)
    ensures ChargeAll(c, fees, fills).fills == c.fills + |fills|
    decreases |fills|
  {
    if fills != [] {
      var f := fills[0];
      ChargeOne(c, fees, f, v);
      ChargeAllOf(Charge(c, fees, f), fees, fills[1..], v + f.price * f.qty, total);
    }
  }

  lemma {:induction false} CountersFollow(h: HashOrder, s: State, cs: seq<Command>)
    requires WF(s.book) && s.counters == Counters(0, 0, 0, 0, 0, 0)
    ensures ChargedFor(After(h, s, cs).counters, s.fees, Notional(Fills(h, s, cs)))
    ensures After(h, s, cs).counters.fills == |Fills(h, s, cs)|
    decreases |cs|
  {
    if cs != [] {
      var init, c := cs[..|cs| - 1], cs[|cs| - 1];
      CountersFollow(h, s, init);
      var before := After(h, s, init);
      hide Apply, ChargedFor, Notional, WF;
      var fills := Apply(h, before.book, c).fills;
      NotionalConcat(Fills(h, s, init), fills);
      CountedKeeps(before.counters, before.book, c, s.fees, Notional(Fills(h, s, init)));
      ChargeAllOf(Counted(before.counters, before.book, c), s.fees, fills,
        Notional(Fills(h, s, init)), Notional(Fills(h, s, init) + fills));
    }
  }

  lemma CountedKeeps(n: Counters, b: Book, c: Command, fees: Fees, v: int)
    requires ChargedFor(n, fees, v)
    ensures ChargedFor(Counted(n, b, c), fees, v) && Counted(n, b, c).fills == n.fills
  {
  }

  lemma Spread(c: Counters, fees: Fees, n: int)
    requires ChargedFor(c, fees, n)
    ensures c.takerFees - c.rebates == (fees.takerBps - fees.makerBps) * n
  {
    Distributes(fees.takerBps, -fees.makerBps, n);
  }

  /** Over every run the house keeps the difference of the two rates on the whole traded value, and
      the fill counter counts the fills emitted. */
  lemma FeesFollowNotional(h: HashOrder, capacity: nat, fees: Fees, cs: seq<Command>)
    requires WF(Start(capacity, fees).book)
    ensures var s := Start(capacity, fees); var c, n := After(h, s, cs).counters, Notional(Fills(h, s, cs));
      && c.rebates == n * fees.makerBps
      && c.takerFees - c.rebates == (fees.takerBps - fees.makerBps) * n
      && c.fills == |Fills(h, s, cs)|
  {
    CountersFollow(h, Start(capacity, fees), cs);
    Spread(After(h, Start(capacity, fees), cs).counters, fees, Notional(Fills(h, Start(capacity, fees), cs)));
  }

  lemma ProductBound(x: int, y: int, maxX: int, maxY: int)
    requires 0 <= x <= maxX && 0 <= y <= maxY
    ensures 0 <= x * y <= maxX * maxY
  {
    assert x * y <= x * maxY <= maxX * maxY;
  }

  predicate RatesWithin(fees: Fees, rate: int) {
    0 <= fees.makerBps <= rate && 0 <= fees.takerBps <= rate
  }

  /** The fees of one fill fit in 64 bits if the bounds on price, quantity and rate multiply to no more
      than that. */
  lemma FeesFit(fees: Fees, price: Tick, qty: int, maxPrice: int, maxQty: int, rate: int)
    requires 0 <= price <= maxPrice && 0 <= qty <= maxQty && RatesWithin(fees, rate)
    requires maxPrice * maxQty * rate <= MAX_TICK
    ensures 0 <= fees.Rebate(price, qty) <= MAX_TICK && 0 <= fees.TakerFee(price, qty) <= MAX_TICK
  {
    ProductBound(price, qty, maxPrice, maxQty);
    ProductBound(price * qty, fees.makerBps, maxPrice * maxQty, rate);
    ProductBound(price * qty, fees.takerBps, maxPrice * maxQty, rate);
  }

  /** At the default rates: prices up to 2^30, whatever the 32-bit quantity. */
  lemma DefaultFeesFit(price: Tick, qty: int)
    requires 0 <= price <= 0x4000_0000 && 0 <= qty <= 0x7FFF_FFFF
    ensures 0 <= DEFAULT_FEES.Rebate(price, qty) <= MAX_TICK && 0 <= DEFAULT_FEES.TakerFee(price, qty) <= MAX_TICK
    ensures DEFAULT_FEES.Rebate(price, qty) == 2 * (price * qty)
    ensures DEFAULT_FEES.TakerFee(price, qty) == 3 * (price * qty)
  {
    FeesFit(DEFAULT_FEES, price, qty, 0x4000_0000, 0x7FFF_FFFF, 3);
  }

  /** Fills of nothing may be at any price: a spent order is passed at its sentinel. */
  predicate PricesWithin(fills: seq<Fill>, maxPrice: int) {
    forall k :: 0 <= k < |fills| ==> fills[k].qty >= 0 && (fills[k].qty > 0 ==> 0 <= fills[k].price <= maxPrice)
  }

  lemma {:induction false} NotionalBound(fills: seq<Fill>, maxPrice: int)
    requires PricesWithin(fills, maxPrice) && maxPrice >= 0
    ensures 0 <= Notional(fills) <= maxPrice * SumQty(fills) && SumQty(fills) >= 0
  {
    if fills != [] {
      var f := fills[0];
      assert PricesWithin(fills[1..], maxPrice);
      NotionalBound(fills[1..], maxPrice);
      if f.qty > 0 {
        ProductBound(f.price, f.qty, maxPrice, f.qty);
      }
      Distributes(f.qty, SumQty(fills[1..]), maxPrice);
    }
  }

  /** The accumulated counters of a run fit in 64 bits if the bounds on price, traded volume and rate
      multiply to no more than that. */
  lemma CountersFit(h: HashOrder, capacity: nat, fees: Fees, cs: seq<Command>, maxPrice: int, volume: int, rate: int)
    requires WF(Start(capacity, fees).book) && RatesWithin(fees, rate) && maxPrice >= 0
    requires var fills := Fills(h, Start(capacity, fees), cs); PricesWithin(fills, maxPrice) && SumQty(fills) <= volume
    requires maxPrice * volume * rate <= MAX_TICK
    ensures var c := After(h, Start(capacity, fees), cs).counters;
      0 <= c.rebates <= MAX_TICK && 0 <= c.takerFees <= MAX_TICK
  {
    var s := Start(capacity, fees);
    var fills, c := Fills(h, s, cs), After(h, s, cs).counters;
    CountersFollow(h, s, cs);
    assert ChargedFor(c, fees, Notional(fills));
    hide WF, After, Fills, Start, PricesWithin, Notional, SumQty;
    NotionalBound(fills, maxPrice);
    var n, sum := Notional(fills), SumQty(fills);
    ProductBound(maxPrice, sum, maxPrice, volume);
    ProductBound(n, fees.makerBps, maxPrice * volume, rate);
    ProductBound(n, fees.takerBps, maxPrice * volume, rate);
  }
}
