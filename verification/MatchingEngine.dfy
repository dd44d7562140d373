/** matching_engine.cpp over the heap: the matching loop and the command handlers, each proved to do
    to the book what the corresponding function on book values does. */
module MatchingEngines {
  import opened Types
  import opened LimitOrderBook
  import opened BookInvariants
  import opened Matching
  import opened Settlement
  import opened Depth
  import opened Engine
  import opened Sessions
  import opened ObjectPool
  import opened PriceLevels
  import opened BookRep
  import opened OrderBooks

  class MatchingEngine {
    const book: OrderBook
    const fees: Fees
    var counters: Counters
    var fillLog: seq<FillReport>   // what the fill callback has been given

    ghost predicate Valid()
      reads this, book, book.pool, book.pool.storage, book.bids.Values, book.asks.Values
    {
      book.Valid() && WF(book.Model()) && this !in book.Repr()
    }

    ghost function Model(): State
      reads this, book, book.pool, book.pool.storage, book.bids.Values, book.asks.Values
    {
      State(book.Model(), fees, counters)
    }

    ghost function Now(): Session
      reads this, book, book.pool, book.pool.storage, book.bids.Values, book.asks.Values
    {
      Session(book.Model(), fillLog, counters)
    }

    ghost function Repr(): set<object>
      reads book
    {
      book.Repr()
    }

    /** Everything the book owns is among r. */
    ghost predicate Fits(r: set<object>)
      reads book
    {
      book.Repr() <= r
    }

    ghost function Slots(): map<OrderId, int>
      reads book
    {
      book.index
    }

    /** Slot p holds order o. */
    ghost predicate Has(p: int, o: Order)
      reads book, book.pool, book.pool.storage
    {
      Holds(book.Mem(), p, o)
    }

    ghost function ToStep(n: Session, id: OrderId): Session {
      Stepped(book.hash, fees, n, id)
    }

    ghost function ToMatch(n: Session, id: OrderId): Session {
      Matched(book.hash, fees, n, id)
    }

    ghost function ToRetire(n: Session, m: Order): Session {
      Retired(book.hash, n, m)
    }

    constructor (book: OrderBook, fees: Fees)
      requires book.Valid() && WF(book.Model())
      ensures this.book == book && this.fees == fees && fillLog == [] && counters == Counters(0, 0, 0, 0, 0, 0)
      ensures Valid()
    {
      hide RawOK, ModelOf, Apart, FreeList, WF;
      this.book := book;
      this.fees := fees;
      counters := Counters(0, 0, 0, 0, 0, 0);
      fillLog := [];
    }

    /** Raises the filled quantities of both parties. */
    method FillOrders(maker: int, taker: int, qty: int, m: Order, t: Order)
      requires book.Valid() && Holds(book.Mem(), maker, m) && Holds(book.Mem(), taker, t) && maker != taker
      modifies book.pool.storage
      ensures book.Valid()
      ensures book.Model() == OrdersFilled(old(book.Model()), m, t, qty)
    {
      hide OrderBook.Valid, OrderBook.Model, Holds;
      book.Rewrite(maker, m, Filled(m, qty));
      book.Rewrite(taker, t, Filled(t, qty));
    }

    /** Fills both parties at the maker's price, shrinks both levels, counts the fees, and hands the
        callback the trade with both of them. */
    method ExecuteFill(maker: int, taker: int, qty: int, m: Order, t: Order)
      requires book.Valid() && Holds(book.Mem(), maker, m) && Holds(book.Mem(), taker, t) && maker != taker
      modifies this, book.pool.storage, book.bids.Values, book.asks.Values
      ensures book.Valid()
      ensures Same(Now(), Executed(old(Now()), fees, m, t, qty))
      ensures fillLog == old(fillLog)
        + [FillReport(Fill(m.id, t.id, m.price, qty), -(m.price * qty * fees.makerBps), m.price * qty * fees.takerBps)]
    {
      hide OrderBook.Valid, OrderBook.Model, Holds, OrdersFilled, Reduced, Charge;
      FillOrders(maker, taker, qty, m, t);
      book.ReduceLevel(m.side, m.price, qty);
      book.ReduceLevel(t.side, t.price, qty);
      var f := Fill(m.id, t.id, m.price, qty);
      var makerFee, takerFee := -fees.Rebate(f.price, qty), fees.TakerFee(f.price, qty);
      counters := Charge(counters, fees, f);
      fillLog := fillLog + [FillReport(f, makerFee, takerFee)];
    }

    /** What taking out the filled maker m leaves: the slot p of another order id is still known. */
    lemma TakenOut(n: Session, m: Order, slots: map<OrderId, int>, id: OrderId, p: int)
      requires book.Valid() && WF(n.book) && this !in book.Repr() && m.IsFilled()
      requires book.Model() == Cancel(book.hash, n.book, m.id) && fillLog == n.reports && counters == n.counters
      requires At(slots, id, p) && id != m.id && Slots() == slots - {m.id}
      ensures Valid() && Same(Now(), ToRetire(n, m)) && At(Slots(), id, p)
    {
      CancelWF(book.hash, n.book, m.id);
      hide OrderBook.Valid, OrderBook.Model, WF, Cancel;
    }

    lemma KeptIn(n: Session, m: Order)
      requires n == Now() && !m.IsFilled()
      ensures Same(Now(), ToRetire(n, m))
    {
    }

    /** Retires a maker that is filled. For an iceberg that is not, checks whether its display slice
        is consumed, which it never is. */
    method RetireMaker(maker: int, m: Order, ghost p: int, ghost id: OrderId, ghost r: set<object>)
      requires Valid() && Has(maker, m) && OrderOK(m) && At(Slots(), id, p) && id != m.id && Fits(r) && this !in r
      modifies r
      ensures Valid() && Fits(r) && At(Slots(), id, p)
      ensures Same(Now(), ToRetire(old(Now()), m))
    {
      ghost var n, slots := Now(), Slots();
      assert book.Valid() && WF(book.Model()) && this !in book.Repr();
      hide OrderBook.Valid, OrderBook.Model, OrderBook.Repr, WF, Holds, Cancel, At, Same, ToRetire, Valid;
      if m.IsFilled() {
        book.TakeOut(maker, m);
        TakenOut(n, m, slots, id, p);
      } else {
        KeptIn(n, m);
        if m.kind.Iceberg? {
          NeverReplenishes(m);
          var displayRemaining := m.display - (m.filled % m.display);
          if displayRemaining <= 0 && m.HasHidden() {
            assert false;   // the replenish step is never reached
          }
        }
      }
    }

    /** The trade of one turn: what is wanted, or what the maker's slice offers. */
    method TradeTurn(p: int, maker: int, m: Order, t: Order) returns (qty: int)
      requires book.Valid() && Has(maker, m) && Has(p, t) && maker != p
      modifies this, book.pool.storage, book.bids.Values, book.asks.Values
      ensures book.Valid() && qty == Min(t.Remaining(), m.Available())
      ensures Same(Now(), Executed(old(Now()), fees, m, t, qty))
    {
      hide OrderBook.Valid, OrderBook.Model, Executed, Holds, Same;
      var available := m.Remaining();
      if m.kind.Iceberg? && m.display > 0 {
        available := Min(available, m.display);
      }
      qty := Min(t.Remaining(), available);
      ExecuteFill(maker, p, qty, m, t);
    }

    /** The maker m of the next turn is in slot maker, and the taker t in slot p. */
    ghost predicate Paired(p: int, maker: int, m: Order, t: Order)
      reads this, book, book.pool, book.pool.storage, book.bids.Values, book.asks.Values
    {
      && Valid() && Turn(book.Model(), m, t)
      && At(book.index, m.id, maker) && At(book.index, t.id, p)
      && Holds(book.Mem(), maker, m) && Holds(book.Mem(), p, t) && maker != p
    }

    lemma PairedParts(p: int, maker: int, m: Order, t: Order)
      requires Paired(p, maker, m, t)
      ensures Valid() && book.Valid() && Turn(Now().book, m, t) && m.id != t.id
      ensures Has(maker, m) && Has(p, t) && maker != p
      ensures At(Slots(), m.id, maker) && At(Slots(), t.id, p)
    {
      hide OrderBook.Valid, OrderBook.Model, WF, CanMatch, Holds;
      MakerRests(book.Model(), t.id);
      MakerIsOther(book.Model(), t.id);
    }

    /** The session n1 between the trade of a turn and the retirement of its maker, who is now m'. */
    ghost predicate Traded(n: Session, n1: Session, t: Order, m': Order) {
      Midway(book.hash, fees, n, n1, t, m')
    }

    /** After a trade the maker is still found in its slot, and nothing is misplaced. */
    lemma TradeLeft(maker: int, n: Session, m: Order, t: Order, qty: int)
      requires book.Valid() && At(Slots(), m.id, maker) && Turn(n.book, m, t) && this !in Repr()
      requires Same(Now(), Executed(n, fees, m, t, qty)) && qty == Min(t.Remaining(), m.Available())
      ensures Valid() && Has(maker, Filled(m, qty)) && Traded(n, Now(), t, Filled(m, qty))
    {
      TurnBook(book.hash, fees, n, m, t, qty);
      hide OrderBook.Valid, OrderBook.Model, WF, Executed, Turn, Filled;
      book.Lookup(m.id);
    }

    /** The trade of one turn, and that the maker is still found in its slot. */
    method TradeStep(p: int, maker: int, m: Order, t: Order, ghost r: set<object>) returns (m': Order)
      requires Paired(p, maker, m, t) && Fits(r)
      modifies this, r
      ensures Valid() && Has(maker, m') && m'.id == m.id && Traded(old(Now()), Now(), t, m')
      ensures At(Slots(), t.id, p) && Fits(r)
    {
      ghost var n := Now();
      PairedParts(p, maker, m, t);
      assert this !in Repr();
      hide OrderBook.Valid, OrderBook.Model, Slots, At, Paired, Turn, Has, Executed, Now, Valid, Traded, Same;
      var qty := TradeTurn(p, maker, m, t);
      m' := Filled(m, qty);
      TradeLeft(maker, n, m, t, qty);
    }

    /** One turn of the matching loop, once there is a price to trade at. */
    method MatchTurn(p: int, maker: int, m: Order, t: Order, ghost r: set<object>)
      requires Paired(p, maker, m, t) && Fits(r) && this !in r
      modifies this, r
      ensures Valid() && Fits(r) && At(Slots(), t.id, p)
      ensures Same(Now(), ToStep(old(Now()), t.id))
    {
      ghost var n := Now();
      PairedParts(p, maker, m, t);
      hide OrderBook.Valid, OrderBook.Model, OrderBook.Repr, Repr, Fits, Slots, At, Paired, Turn, Valid, Has, Traded,
          Now, ToStep, ToRetire, OrderOK, Same;
      var m' := TradeStep(p, maker, m, t, r);
      ghost var n1 := Now();
      TradedOrder(n, n1, t, m');
      RetireMaker(maker, m', p, t.id, r);
      TradedRetired(n, n1, Now(), t, m');
    }

    lemma TradedOrder(n: Session, n1: Session, t: Order, m': Order)
      requires Traded(n, n1, t, m')
      ensures OrderOK(m')
    {
    }

    lemma TradedRetired(n: Session, n1: Session, n2: Session, t: Order, m': Order)
      requires Traded(n, n1, t, m') && Same(n2, ToRetire(n1, m'))
      ensures Same(n2, ToStep(n, t.id))
    {
    }

    // ---------------------------------------------------------------- the matching loop

    /** What the head of the loop decides: no slot if the loop ends, else the slot of the maker. */
    function NextMaker(p: int): int
      requires 0 <= p < book.pool.storage.Length && book.pool.storage[p].Live?
      reads book, book.pool, book.pool.storage, book.bids.Values, book.asks.Values
    {
      var t := book.pool.storage[p].obj.o;
      var best := if t.side.Bid? then book.bestAsk else book.bestBid;
      if t.Remaining() <= 0 then NULL
      else if best == INVALID_PRICE then NULL
      else if !t.kind.Market? && ((t.side.Bid? && t.price < best) || (t.side.Ask? && t.price > best)) then NULL
      else book.BestOrder(t.side.Opposite())
    }

    lemma NextMakerIs(p: int, id: OrderId)
      requires Valid() && At(Slots(), id, p)
      ensures 0 <= p < book.pool.storage.Length && book.pool.storage[p].Live?
      ensures Walking(p, id, NextMaker(p))
    {
      book.Lookup(id);
      book.BestOrderIsFront(book.Model().orders[id].side.Opposite());
      hide OrderBook.Valid, WF, OrderOK, RawOK, Holds;
    }

    /** The loop stands before maker, or has ended if there is none. */
    ghost predicate Walking(p: int, id: OrderId, maker: int)
      reads this, book, book.pool, book.pool.storage, book.bids.Values, book.asks.Values
    {
      && Valid() && At(book.index, id, p) && id in Now().book.orders
      && (maker == NULL <==> !GoesOn(book.Model(), id))
      && (maker != NULL ==> LiveAt(book.Mem(), maker) && Faced(book.Model(), id) == OrderAt(book.Mem(), maker).id)
    }

    /** The order in a slot is the one the id map finds there. */
    lemma SlotIsIndexed(p: int)
      requires book.Valid() && LiveAt(book.Mem(), p)
      ensures At(book.index, OrderAt(book.Mem(), p).id, p)
    {
    }

    lemma WalkingPairs(p: int, id: OrderId, maker: int)
      requires Walking(p, id, maker) && maker != NULL
      ensures LiveAt(book.Mem(), p) && LiveAt(book.Mem(), maker) && OrderAt(book.Mem(), p).id == id
      ensures Paired(p, maker, OrderAt(book.Mem(), maker), OrderAt(book.Mem(), p)) && this !in Repr()
      ensures OneTurn(Now(), id)
    {
      MakerRests(book.Model(), id);
      SlotIsIndexed(maker);
      hide OrderBook.Valid, OrderBook.Model, WF, CanMatch, Todo;
      book.Lookup(id);
      book.Lookup(Faced(book.Model(), id));
      MakerIsOther(book.Model(), id);
      book.LookupDistinct(Faced(book.Model(), id), id);
    }

    lemma WalkingEnds(p: int, id: OrderId, goal: Session)
      requires Walking(p, id, NULL) && LeadsTo(Now(), id, goal)
      ensures Valid() && At(Slots(), id, p) && Same(Now(), goal)
      ensures LiveAt(book.Mem(), p) && OrderAt(book.Mem(), p).Remaining() == Rem(Now().book, id)
    {
      MatchedDone(book.hash, fees, Now(), id);
      hide OrderBook.Valid, OrderBook.Model, WF;
      book.Lookup(id);
    }

    /** There is a turn to take. */
    ghost predicate OneTurn(n: Session, id: OrderId) {
      WF(n.book) && GoesOn(n.book, id)
    }

    /** The loop, from session n on, leads to goal. */
    ghost predicate LeadsTo(n: Session, id: OrderId, goal: Session) {
      ToMatch(n, id) == goal
    }

    lemma TurnTaken(n: Session, n1: Session, id: OrderId, goal: Session)
      requires OneTurn(n, id) && Same(n1, ToStep(n, id)) && LeadsTo(n, id, goal)
      ensures LeadsTo(n1, id, goal) && 0 <= Todo(n1.book, id) < Todo(n.book, id)
    {
      hide WF, GoesOn;
      MatchedStep(book.hash, fees, n, id);
    }

    /** One turn, and the look at the next maker. */
    method WalkOn(p: int, ghost id: OrderId, maker: int, ghost goal: Session, ghost r: set<object>) returns (next: int)
      requires Walking(p, id, maker) && maker != NULL && LeadsTo(Now(), id, goal) && Fits(r) && this !in r
      modifies this, r
      ensures Walking(p, id, next) && Fits(r) && LeadsTo(Now(), id, goal)
      ensures 0 <= Todo(Now().book, id) < Todo(old(Now()).book, id)
    {
      ghost var n := Now();
      WalkingPairs(p, id, maker);
      hide OrderBook.Valid, OrderBook.Model, OrderBook.Repr, Repr, Fits, Valid, Paired, Walking, Now, LeadsTo, ToStep,
          Todo, At, Same, OneTurn;
      MatchTurn(p, maker, book.pool.storage[maker].obj.o, book.pool.storage[p].obj.o, r);
      TurnTaken(n, Now(), id, goal);
      NextMakerIs(p, id);
      next := NextMaker(p);
    }

    /** Walks the opposite side until nothing more is wanted or nothing more is offered. */
    method MatchOrder(p: int, ghost id: OrderId, ghost r: set<object>) returns (remaining: int)
      requires Valid() && At(Slots(), id, p) && Fits(r) && this !in r
      modifies this, r
      ensures Valid() && Fits(r) && At(Slots(), id, p)
      ensures Same(Now(), ToMatch(old(Now()), id))
      ensures remaining == Rem(Now().book, id)
    {
      ghost var goal := ToMatch(Now(), id);
      assert LeadsTo(Now(), id, goal);
      hide OrderBook.Valid, OrderBook.Model, OrderBook.Repr, Repr, Fits, Valid, Walking, Now, ToMatch, LeadsTo, Todo,
          At, Rem, Same;
      NextMakerIs(p, id);
      var maker := NextMaker(p);
      while maker != NULL
        invariant Walking(p, id, maker) && Fits(r)
        invariant LeadsTo(Now(), id, goal)
        decreases Todo(Now().book, id)
      {
        maker := WalkOn(p, id, maker, goal, r);
      }
      WalkingEnds(p, id, goal);
      remaining := book.pool.storage[p].obj.o.Remaining();
    }

    // ---------------------------------------------------------------- new orders

    ghost function ToSettle(n: Session, o: Order): Session {
      Settled(book.hash, fees, n, o)
    }

    ghost function ToCancel(n: Session, id: OrderId): Session {
      CancelledIn(book.hash, n, id)
    }

    /** Slot p holds order o, just entered, and session n is the one before it was. */
    ghost predicate Standing(n: Session, o: Order, p: int)
      reads this, book, book.pool, book.pool.storage, book.bids.Values, book.asks.Values
    {
      && Valid() && CanEnter(n.book, o) && At(Slots(), o.id, p)
      && Same(Now(), PlacedIn(n, o))
    }

    lemma StandingParts(n: Session, o: Order, p: int)
      requires Standing(n, o, p)
      ensures Valid() && At(Slots(), o.id, p) && ToMatch(Now(), o.id) == ToMatch(PlacedIn(n, o), o.id)
    {
      hide Valid, At, OrderBook.Model, CanEnter;
    }

    /** Takes the order in slot p out of the book. */
    method Withdraw(p: int, ghost id: OrderId, ghost r: set<object>)
      requires Valid() && At(Slots(), id, p) && Fits(r) && this !in r
      modifies r
      ensures Valid() && Fits(r)
      ensures Same(Now(), ToCancel(old(Now()), id))
    {
      ghost var n := Now();
      book.Lookup(id);
      CancelWF(book.hash, book.Model(), id);
      hide OrderBook.Valid, OrderBook.Model, OrderBook.Repr, WF, Holds, Cancel;
      book.TakeOut(p, n.book.orders[id]);
    }

    lemma MatchedIsSettled(n: Session, o: Order, n1: Session)
      requires CanEnter(n.book, o) && Same(n1, ToMatch(PlacedIn(n, o), o.id))
      ensures var rem := Rem(n1.book, o.id); var left := if o.kind.Market? then rem > 0 else rem <= 0;
        Same(if left then ToCancel(n1, o.id) else n1, ToSettle(n, o))
    {
      SettledIs(book.hash, fees, n, o, n1);
    }

    /** Matches the order standing in slot p. A market order leaves if it is not filled, any other if
        it is. */
    method MatchAndLeave(p: int, o: Order, ghost n: Session, ghost r: set<object>) returns (left: bool)
      requires Standing(n, o, p) && Fits(r) && this !in r
      modifies this, r
      ensures Valid() && Fits(r)
      ensures Same(Now(), ToSettle(n, o))
    {
      StandingParts(n, o, p);
      assert CanEnter(n.book, o);
      hide OrderBook.Valid, OrderBook.Model, OrderBook.Repr, Repr, Valid, Now, At, Slots, Fits, ToMatch, ToSettle,
          ToCancel, Standing, Same, CanEnter, Rem;
      var remaining := MatchOrder(p, o.id, r);
      left := if o.kind.Market? then remaining > 0 else remaining <= 0;
      MatchedIsSettled(n, o, Now());
      if left {
        Withdraw(p, o.id, r);
      }
    }

    /** What entering o has come to: refused, nothing done; or standing in slot p. */
    ghost predicate Entered(n: Session, o: Order, p: int)
      reads this, book, book.pool, book.pool.storage, book.bids.Values, book.asks.Values
    {
      if p == NULL then Valid() && Same(Now(), n) && !Admits(n.book, o.id) else Standing(n, o, p)
    }

    lemma EnteredIs(n: Session, o: Order, p: int)
      requires book.Valid() && this !in Repr() && fillLog == n.reports && counters == n.counters
      requires WF(n.book) && OrderOK(o) && (p != NULL <==> Admits(n.book, o.id))
      requires book.Model() == if p == NULL then n.book else Placed(n.book, o)
      requires p != NULL ==> At(Slots(), o.id, p)
      ensures Entered(n, o, p)
    {
      if p != NULL {
        PlacedWF(n.book, o);
      }
      hide OrderBook.Valid, OrderBook.Model, WF, OrderOK, Admits, Placed;
    }

    /** Enters a market order at the worst price of its side. */
    method PlaceMarket(o: Order, ghost n: Session) returns (p: int)
      requires Valid() && n == Now() && o == Incoming(o.id, o.side, Market, o.price, o.qty, o.display, o.ts)
          && o.qty > 0
      modifies Repr()
      ensures Entered(n, o, p) && fresh(Repr() - old(Repr()))
    {
      MarketPlaced(n.book, o);
      hide OrderBook.Valid, OrderBook.Model, WF, Insert, Placed, LimitOrderBook.AddOrder, Entered, Same;
      p := book.AddOrder(o.id, o.side, MarketPrice(o.side), o.qty, o.ts);
      if p != NULL {
        ghost var r := Repr();
        assert book.pool.storage in r;
        hide OrderBook.Repr, Repr;
        MarkMarket(p, o, n, r);
      } else {
        EnteredIs(n, o, p);
      }
    }

    /** The order in slot p, entered as a limit order, is made a market order. */
    method MarkMarket(p: int, o: Order, ghost n: Session, ghost r: set<object>)
      requires book.Valid() && this !in Repr() && r == Repr() && fillLog == n.reports && counters == n.counters
      requires WF(n.book) && OrderOK(o) && Admits(n.book, o.id) && p != NULL
      requires Has(p, o.(kind := Limit)) && At(Slots(), o.id, p)
      requires book.Model().(orders := book.Model().orders[o.id := o]) == Placed(n.book, o)
      modifies book.pool.storage
      ensures Entered(n, o, p) && r == Repr()
    {
      hide OrderBook.Valid, OrderBook.Model, OrderBook.Repr, WF, Placed, Admits, OrderOK, Entered, At, Slots;
      book.Rewrite(p, o.(kind := Limit), o);
      EnteredIs(n, o, p);
    }

    /** Enters a limit or an iceberg order. */
    method PlacePriced(o: Order, ghost n: Session) returns (p: int)
      requires Valid() && n == Now() && o == Incoming(o.id, o.side, o.kind, o.price, o.qty, o.display, o.ts)
          && o.qty > 0
      requires !o.kind.Market? && (o.kind.Iceberg? ==> o.display > 0)
      modifies Repr()
      ensures Entered(n, o, p) && fresh(Repr() - old(Repr()))
    {
      hide OrderBook.Valid, OrderBook.Model, WF;
      if o.kind.Iceberg? {
        p := book.AddIcebergOrder(o.id, o.side, o.price, o.qty, o.display, o.ts);
      } else {
        p := book.AddOrder(o.id, o.side, o.price, o.qty, o.ts);
      }
      EnteredIs(n, o, p);
    }

    lemma EnteredParts(n: Session, o: Order, p: int)
      requires Entered(n, o, p)
      ensures Valid() && this !in Repr() && Fits(Repr())
      ensures if p == NULL then Same(Now(), ToSettle(n, o)) else Standing(n, o, p)
    {
      hide OrderBook.Valid, OrderBook.Model, WF, Admits, Settle;
    }

    method EnterMarket(o: Order)
      requires Valid() && o == Incoming(o.id, o.side, Market, o.price, o.qty, o.display, o.ts) && o.qty > 0
      modifies this, Repr()
      ensures Valid() && fresh(Repr() - old(Repr()))
      ensures Same(Now(), ToSettle(old(Now()), o))
    {
      ghost var n := Now();
      hide OrderBook.Valid, OrderBook.Model, OrderBook.Repr, Valid, Entered, Standing, Now, ToSettle, Same;
      var p := PlaceMarket(o, n);
      EnteredParts(n, o, p);
      if p != NULL {
        var _ := MatchAndLeave(p, o, n, Repr());
      }
    }

    /** Does an order at this price reach the best price on the other side? */
    function Crosses(side: Side, price: Tick): bool
      reads book
    {
      if side.Bid? && book.bestAsk != INVALID_PRICE then price >= book.bestAsk
      else if side.Ask? && book.bestBid != INVALID_PRICE then price <= book.bestBid
      else false
    }

    lemma NotCrossing(n: Session, o: Order, p: int)
      requires Standing(n, o, p) && o.qty > 0 && o.filled == 0 && !o.kind.Market? && !Crosses(o.side, o.price)
      ensures Valid() && Same(Now(), ToSettle(n, o))
    {
      BestOpposite(n.book, o);
      assert book.Model() == Placed(n.book, o);
      hide OrderBook.Valid, WF, CanEnter, Admits, OrderOK, Placed, Settled, RawOK;
      SettledRests(book.hash, fees, n, o);
    }

    /** Orders that cross are matched at once; what is left of them, and all others, rest. */
    method EnterPriced(o: Order)
      requires Valid() && o == Incoming(o.id, o.side, o.kind, o.price, o.qty, o.display, o.ts) && o.qty > 0
      requires !o.kind.Market? && (o.kind.Iceberg? ==> o.display > 0)
      modifies this, Repr()
      ensures Valid() && fresh(Repr() - old(Repr()))
      ensures Same(Now(), ToSettle(old(Now()), o))
    {
      ghost var n := Now();
      hide OrderBook.Valid, OrderBook.Model, OrderBook.Repr, Valid, Entered, Standing, Now, ToSettle, Same;
      var p := PlacePriced(o, n);
      EnteredParts(n, o, p);
      if p != NULL {
        if Crosses(o.side, o.price) {
          var _ := MatchAndLeave(p, o, n, Repr());
        } else {
          NotCrossing(n, o, p);
        }
      }
    }

    // ---------------------------------------------------------------- the command handlers

    ghost function ToProcess(n: Session, c: Command): Session {
      Processed(book.hash, fees, n, c)
    }

    /** The session after order c is validated and, if valid, entered. */
    ghost function ToEnter(n: Session, c: Command): Session
      requires c.NewOrder?
    {
      if ValidNew(c.kind, c.price, c.qty, c.display) then ToSettle(n, OrderOf(c)) else n
    }

    /** Refuses invalid orders and enters the others. */
    method EnterOrder(id: OrderId, side: Side, kind: Kind, price: Tick, qty: int, display: int)
      requires Valid()
      modifies this, Repr()
      ensures Valid() && fresh(Repr() - old(Repr()))
      ensures Same(Now(), ToEnter(old(Now()), NewOrder(id, side, kind, price, qty, display)))
    {
      hide OrderBook.Valid, OrderBook.Model, OrderBook.Repr, Repr, Valid, Now, WF, ToSettle;
      if qty <= 0 {
        return;
      }
      if kind.Limit? && price <= 0 {
        return;
      }
      if kind.Iceberg? && (price <= 0 || display <= 0) {
        return;
      }
      hide Same;
      var o := Incoming(id, side, kind, price, qty, display, 0);
      if kind.Market? {
        EnterMarket(o);
      } else {
        EnterPriced(o);
      }
    }

    lemma CountedThenEntered(n: Session, n0: Session, n1: Session, c: Command)
      requires WF(n.book) && c.NewOrder? && Same(n0, OrderCounted(n)) && Same(n1, ToEnter(n0, c))
      ensures Same(n1, ToProcess(n, c))
    {
      ProcessedNew(book.hash, fees, n, c);
    }

    method CountOrder()
      requires Valid()
      modifies this`counters
      ensures Valid() && Repr() == old(Repr()) && Same(Now(), OrderCounted(old(Now())))
    {
      hide OrderBook.Valid, OrderBook.Model, WF;
      counters := counters.(orders := counters.orders + 1);
    }

    method ProcessNewOrder(id: OrderId, side: Side, kind: Kind, price: Tick, qty: int, display: int)
      requires Valid()
      modifies this, Repr()
      ensures Valid() && fresh(Repr() - old(Repr()))
      ensures Same(Now(), ToProcess(old(Now()), NewOrder(id, side, kind, price, qty, display)))
    {
      ghost var n := Now();
      assert WF(n.book);
      hide OrderBook.Valid, OrderBook.Model, OrderBook.Repr, Repr, Valid, Now, WF, Same, ToEnter, ToProcess;
      CountOrder();
      ghost var n0 := Now();
      label L:
      EnterOrder(id, side, kind, price, qty, display);
      CountedThenEntered(n, n0, Now(), NewOrder(id, side, kind, price, qty, display));
      forall o | o in Repr() && o !in old(Repr()) ensures fresh(o) {
        assert fresh@L(o);
      }
    }

    /** The book has become what c makes of it, and the engine has yet to count it. */
    ghost predicate Booked(n: Session, c: Command)
      reads this, book, book.pool, book.pool.storage, book.bids.Values, book.asks.Values
    {
      && WF(n.book) && book.Valid() && this !in book.Repr() && Apply(book.hash, n.book, c).fills == []
      && Same(Now(), n.(book := Apply(book.hash, n.book, c).book))
    }

    lemma CountedIs(n: Session, c: Command, n1: Session)
      requires book.Valid() && this !in Repr() && WF(n.book)
      requires book.Model() == n1.book && fillLog == n1.reports && counters == Counted(n.counters, n.book, c)
      requires Apply(book.hash, n.book, c).fills == [] && Same(n1, n.(book := Apply(book.hash, n.book, c).book))
      ensures Valid() && Same(Now(), ToProcess(n, c))
    {
      ApplyWF(book.hash, n.book, c);
      ProcessedQuietly(book.hash, fees, n, c, Counting(n1, n, c));
      hide OrderBook.Valid, OrderBook.Model, WF, Apply, Counted, ToProcess;
    }

    lemma BookedParts(n: Session, c: Command)
      requires Booked(n, c)
      ensures book.Valid() && this !in Repr() && WF(n.book)
      ensures Apply(book.hash, n.book, c).fills == [] && Same(Now(), n.(book := Apply(book.hash, n.book, c).book))
    {
      hide OrderBook.Valid, OrderBook.Model, WF, Apply;
    }

    lemma NowIs()
      ensures Now().book == book.Model() && Now().reports == fillLog
    {
      hide OrderBook.Model;
    }

    method CountHandled(c: Command, ghost n: Session, counters': Counters)
      requires Booked(n, c) && counters' == Counted(n.counters, n.book, c)
      modifies this`counters
      ensures Valid() && Same(Now(), ToProcess(n, c))
    {
      hide OrderBook.Valid, OrderBook.Model, OrderBook.Repr, Repr, WF, Apply, Counted, ToProcess, Booked, Valid, Same,
          Now;
      ghost var n1 := Now();
      BookedParts(n, c);
      NowIs();
      counters := counters';
      CountedIs(n, c, n1);
    }

    method CancelBooked(id: OrderId) returns (ok: bool)
      requires Valid()
      modifies Repr()
      ensures Booked(old(Now()), Command.CancelOrder(id)) && fresh(Repr() - old(Repr()))
      ensures ok == (id in old(Now()).book.orders) && counters == old(counters)
    {
      hide OrderBook.Valid, OrderBook.Model, WF, Cancel;
      ok := book.CancelOrder(id);
    }

    method ModifyBooked(id: OrderId, price: Tick, qty: int) returns (ok: bool)
      requires Valid()
      modifies Repr()
      ensures Booked(old(Now()), Command.ModifyOrder(id, price, qty)) && fresh(Repr() - old(Repr()))
      ensures ok == ModifyAllowed(old(Now()).book, id, qty) && counters == old(counters)
    {
      hide OrderBook.Valid, OrderBook.Model, WF, Modify, ModifyAllowed;
      ok := book.ModifyOrder(id, price, qty);
    }

    method ProcessCancel(id: OrderId) returns (ok: bool)
      requires Valid()
      modifies this, Repr()
      ensures Valid() && fresh(Repr() - old(Repr()))
      ensures ok == (id in old(Now()).book.orders)
      ensures Same(Now(), ToProcess(old(Now()), Command.CancelOrder(id)))
    {
      ghost var n := Now();
      hide OrderBook.Valid, OrderBook.Model, OrderBook.Repr, Repr, Valid, Booked, Same, ToProcess;
      ok := CancelBooked(id);
      CountHandled(Command.CancelOrder(id), n, if ok then counters.(cancels := counters.cancels + 1) else counters);
    }

    method ProcessModify(id: OrderId, price: Tick, qty: int) returns (ok: bool)
      requires Valid()
      modifies this, Repr()
      ensures Valid() && fresh(Repr() - old(Repr()))
      ensures ok == ModifyAllowed(old(Now()).book, id, qty)
      ensures Same(Now(), ToProcess(old(Now()), Command.ModifyOrder(id, price, qty)))
    {
      ghost var n := Now();
      hide OrderBook.Valid, OrderBook.Model, OrderBook.Repr, Repr, Valid, Booked, ModifyAllowed, Same, ToProcess;
      ok := ModifyBooked(id, price, qty);
      CountHandled(Command.ModifyOrder(id, price, qty), n,
          if ok then counters.(changes := counters.changes + 1) else counters);
    }

    // ---------------------------------------------------------------- events

    /** Copies a depth list into the zeroed arrays of a message. */
    method Pad(d: seq<DepthLevel>) returns (prices: seq<Tick>, qtys: seq<int>)
      requires |d| <= MAX_DEPTH_LEVELS
      ensures prices == PaddedPrices(d, MAX_DEPTH_LEVELS) && qtys == PaddedQtys(d, MAX_DEPTH_LEVELS)
    {
      prices, qtys := seq(MAX_DEPTH_LEVELS, _ => 0), seq(MAX_DEPTH_LEVELS, _ => 0);
      for i := 0 to |d|
        invariant |prices| == |qtys| == MAX_DEPTH_LEVELS
        invariant forall k :: 0 <= k < MAX_DEPTH_LEVELS ==> prices[k] == if k < i then d[k].price else 0
        invariant forall k :: 0 <= k < MAX_DEPTH_LEVELS ==> qtys[k] == if k < i then d[k].qty else 0
      {
        prices := prices[i := d[i].price];
        qtys := qtys[i := d[i].qty];
      }
    }

    method GetSide(s: Side) returns (count: nat, prices: seq<Tick>, qtys: seq<int>)
      requires Valid()
      ensures var d := TopLevels(s, Now().book.On(s).levels, MAX_DEPTH_LEVELS);
        count == |d| && prices == PaddedPrices(d, MAX_DEPTH_LEVELS) && qtys == PaddedQtys(d, MAX_DEPTH_LEVELS)
    {
      ghost var levels := Now().book.On(s).levels;
      hide OrderBook.Valid, OrderBook.Model, WF, TopLevels, PaddedPrices, PaddedQtys;
      var d := book.GetDepth(s, MAX_DEPTH_LEVELS);
      TopSize(s, levels, MAX_DEPTH_LEVELS);
      prices, qtys := Pad(d);
      count := |d|;
    }

    method GetBookSnapshot() returns (msg: BookUpdate)
      requires Valid()
      ensures msg == Snapshot(Now().book)
    {
      ghost var n := Now();
      assert book.bestBid == n.book.bids.best && book.bestAsk == n.book.asks.best;
      hide OrderBook.Valid, OrderBook.Model, Now, Valid, TopLevels, PaddedPrices, PaddedQtys;
      var bids, bidPrices, bidQtys := GetSide(Bid);
      var asks, askPrices, askQtys := GetSide(Ask);
      msg := BookUpdate(book.bestBid, book.bestAsk, bids, asks, bidPrices, bidQtys, askPrices, askQtys);
    }

    /** Carries out a command. A cancel or a modify that fails gives rise to a rejection. */
    method Perform(cmd: ClientCommand) returns (rejection: Option<Event>)
      requires Valid()
      modifies this, Repr()
      ensures Valid() && fresh(Repr() - old(Repr()))
      ensures Same(Now(), ToProcess(old(Now()), cmd.body)) && rejection == RejectionOf(old(Now()).book, cmd)
    {
      ghost var n := Now();
      hide OrderBook.Valid, OrderBook.Model, OrderBook.Repr, Repr, Valid, ToProcess, Same, ModifyAllowed;
      rejection := None;
      match cmd.body
      case NewOrder(id, side, kind, price, qty, display) =>
        ProcessNewOrder(id, side, kind, price, qty, display);
      case CancelOrder(id) =>
        var ok := ProcessCancel(id);
        if !ok {
          rejection := Some(Reject(cmd.client, id, OrderNotFound));
        }
      case ModifyOrder(id, price, qty) =>
        var ok := ProcessModify(id, price, qty);
        if !ok {
          rejection := Some(Reject(cmd.client, id, InvalidModify));
        }
      case Other =>
        NothingDone();
    }

    lemma NothingDone()
      requires Valid()
      ensures Same(Now(), ToProcess(Now(), Other))
    {
      hide OrderBook.Valid, OrderBook.Model, WF, Processed;
      ProcessedQuietly(book.hash, fees, Now(), Other, Now());
    }

    /** The event that cmd produces in session n. */
    ghost function Emits(n: Session, cmd: ClientCommand): Option<Event> {
      if WF(n.book) then EventOf(book.hash, State(n.book, fees, n.counters), cmd) else None
    }

    lemma EmitsIs(n: Session, n1: Session, cmd: ClientCommand)
      requires WF(n.book) && Same(n1, ToProcess(n, cmd.body))
      ensures Emits(n, cmd) == if cmd.body.Other? then None
        else if RejectionOf(n.book, cmd).Some? then RejectionOf(n.book, cmd)
        else Some(Update(Snapshot(n1.book)))
      ensures State(n1.book, fees, n1.counters) == Next(book.hash, State(n.book, fees, n.counters), cmd.body)
      ensures n1.reports == n.reports + Reports(fees, Apply(book.hash, n.book, cmd.body).fills)
    {
      hide WF, Apply, RejectionOf, Snapshot;
    }

    method Handle(cmd: ClientCommand) returns (ev: Option<Event>)
      requires Valid()
      modifies this, Repr()
      ensures Valid() && fresh(Repr() - old(Repr()))
      ensures Same(Now(), ToProcess(old(Now()), cmd.body)) && ev == Emits(old(Now()), cmd)
    {
      ghost var n := Now();
      assert WF(n.book);
      hide OrderBook.Valid, OrderBook.Model, OrderBook.Repr, Repr, Valid, Now, WF, ToProcess, Same, Emits,
          RejectionOf, Snapshot;
      ev := Perform(cmd);
      EmitsIs(n, Now(), cmd);
      if ev.None? && !cmd.body.Other? {
        ev := Announce(Now(), Repr());
      }
    }

    /** The event that broadcasts the book. */
    method Announce(ghost n: Session, ghost r: set<object>) returns (ev: Option<Event>)
      requires Valid() && n == Now() && r == Repr()
      ensures Valid() && n == Now() && r == Repr()
      ensures ev == Some(Update(Snapshot(n.book)))
    {
      hide OrderBook.Valid, OrderBook.Model, OrderBook.Repr, Repr, Valid, Now, Snapshot;
      var msg := GetBookSnapshot();
      ev := Some(Update(msg));
    }

    /** The engine does to its book, its fill callback and its counters exactly what the sequential
        engine on values does, and emits that engine's event. */
    method ProcessClientCommand(cmd: ClientCommand) returns (ev: Option<Event>)
      requires Valid()
      modifies this, Repr()
      ensures Valid() && fresh(Repr() - old(Repr()))
      ensures Model() == Next(book.hash, old(Model()), cmd.body)
      ensures fillLog == old(fillLog) + Reports(fees, Apply(book.hash, old(book.Model()), cmd.body).fills)
      ensures ev == EventOf(book.hash, old(Model()), cmd)
      ensures Same(Now(), ToProcess(old(Now()), cmd.body)) && ev == Emits(old(Now()), cmd)
    {
      ghost var n := Now();
      assert WF(n.book) && Model() == State(n.book, fees, n.counters);
      hide OrderBook.Valid, OrderBook.Model, OrderBook.Repr, Repr, Valid, WF, ToProcess, Same, EventOf, Apply, Next;
      ev := Handle(cmd);
      EmitsIs(n, Now(), cmd);
    }

    /** From session n, the commands done have led to the present session and emitted events. */
    ghost predicate Ran(n: Session, done: seq<ClientCommand>, events: seq<Event>)
      reads this, book, book.pool, book.pool.storage, book.bids.Values, book.asks.Values
    {
      Valid() && RanTo(book.hash, fees, n, done, Now(), events)
    }

    lemma RanParts(n: Session, done: seq<ClientCommand>, events: seq<Event>)
      requires Ran(n, done, events)
      ensures Valid() && RanTo(book.hash, fees, n, done, Now(), events)
    {
    }

    lemma RanOn(n: Session, done: seq<ClientCommand>, n1: Session, events: seq<Event>, cmd: ClientCommand,
        ev: Option<Event>)
      requires RanTo(book.hash, fees, n, done, n1, events) && Valid()
      requires Same(Now(), ToProcess(n1, cmd.body)) && ev == Emits(n1, cmd)
      ensures Ran(n, done + [cmd], if ev.Some? then events + [ev.value] else events)
    {
      RanNext(book.hash, fees, n, done, n1, events, cmd);
      hide *;
    }

    /** One round of the engine thread: the next command is handled and its event, if any, passed on. */
    method Serve(cmd: ClientCommand, events: seq<Event>, ghost n: Session, ghost done: seq<ClientCommand>)
      returns (events': seq<Event>)
      requires Ran(n, done, events)
      modifies this, Repr()
      ensures Ran(n, done + [cmd], events') && fresh(Repr() - old(Repr()))
    {
      ghost var n1 := Now();
      RanParts(n, done, events);
      hide OrderBook.Valid, OrderBook.Model, OrderBook.Repr, Repr, Valid, Now, Ran, ToProcess, Same, Emits, Model,
          Next, Apply, EventOf, RanTo;
      var ev := ProcessClientCommand(cmd);
      RanOn(n, done, n1, events, cmd, ev);
      events' := if ev.Some? then events + [ev.value] else events;
    }

    lemma RanStart()
      requires Valid()
      ensures Ran(Now(), [], [])
    {
      hide OrderBook.Valid, OrderBook.Model, WF, RanTo;
      RanNone(book.hash, fees, Now());
    }

    lemma RanEnd(n: Session, cmds: seq<ClientCommand>, events: seq<Event>, s: State)
      requires Ran(n, cmds, events) && s == State(n.book, fees, n.counters)
      ensures Valid() && WF(s.book) && Model() == After(book.hash, s, Bodies(cmds))
      ensures fillLog == n.reports + Reports(fees, Fills(book.hash, s, Bodies(cmds)))
      ensures events == Events(book.hash, s, cmds)
    {
      hide OrderBook.Valid, OrderBook.Model, WF, After, Fills, Events;
    }

    method ServeAll(cmds: seq<ClientCommand>) returns (events: seq<Event>)
      requires Valid()
      modifies this, Repr()
      ensures Ran(old(Now()), cmds, events) && fresh(Repr() - old(Repr()))
    {
      ghost var n := Now();
      hide OrderBook.Repr, Repr, Valid, Now, Ran;
      RanStart();
      events := [];
      for i := 0 to |cmds|
        invariant Ran(n, cmds[..i], events) && fresh(Repr() - old(Repr()))
      {
        label Before:
        events := Serve(cmds[i], events, n, cmds[..i]);
        assert cmds[..i] + [cmds[i]] == cmds[..i + 1];
        forall o | o in Repr() && o !in old(Repr())
          ensures fresh(o)
        {
          assert o in old@Before(Repr()) || fresh@Before(o);
        }
      }
      assert cmds[..|cmds|] == cmds;
    }

    /** The counters are still the totals of what the callback was given. */
    lemma RanTallied(n: Session, cmds: seq<ClientCommand>, events: seq<Event>)
      requires Ran(n, cmds, events)
      ensures Tallied(n) ==> Tallied(Now())
    {
      hide OrderBook.Valid, OrderBook.Model, WF, Reached, Tallied;
      if Tallied(n) {
        RunTallied(book.hash, fees, n, cmds);
        RanIsReached(book.hash, fees, n, cmds, Now(), events);
      }
    }

    /** The engine thread over a whole queue of commands: the events it emits, in order, are those of
        the sequential engine, and so are the fills, whose fees add up to the counters'. */
    method ProcessAll(cmds: seq<ClientCommand>) returns (events: seq<Event>)
      requires Valid()
      modifies this, Repr()
      ensures Valid() && fresh(Repr() - old(Repr()))
      ensures Model() == After(book.hash, old(Model()), Bodies(cmds))
      ensures fillLog == old(fillLog) + Reports(fees, Fills(book.hash, old(Model()), Bodies(cmds)))
      ensures events == Events(book.hash, old(Model()), cmds)
      ensures Tallied(old(Now())) ==> Tallied(Now())
    {
      ghost var n, s := Now(), Model();
      assert WF(s.book) && s == State(n.book, fees, n.counters) && n.reports == fillLog;
      hide OrderBook.Valid, OrderBook.Model, OrderBook.Repr, Repr, Valid, Now, Ran, Model, After, Fills, Events, WF,
          Tallied;
      events := ServeAll(cmds);
      RanTallied(n, cmds, events);
      RanEnd(n, cmds, events, s);
    }
  }
}
