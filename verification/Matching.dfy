/** The matching loop of matching_engine.cpp as a function on book values: termination, the ownership
    partition, the frame of both sides, and exact accounting of every order it touches. */
module Matching {
  import opened Types
  import opened LimitOrderBook
  import opened BookInvariants

  datatype MatchResult = MatchResult(book: Book, fills: seq<Fill>)

  /** The loop goes on: quantity is wanted, the opposite side offers a price that is accepted. */
  predicate CanMatch(b: Book, taker: OrderId)
    requires taker in b.orders
  {
    var t := b.orders[taker];
    var l := b.On(t.side.Opposite());
    && t.Remaining() > 0
    && l.best != INVALID_PRICE
    && t.Accepts(l.best)
    && l.best in l.levels
    && l.levels[l.best].queue != []
  }

  function MakerOf(b: Book, taker: OrderId): OrderId
    requires taker in b.orders && CanMatch(b, taker)
  {
    var l := b.On(b.orders[taker].side.Opposite());
    l.levels[l.best].queue[0]
  }

  lemma MakerRests(b: Book, taker: OrderId)
    requires WF(b) && taker in b.orders && CanMatch(b, taker)
    ensures var m := MakerOf(b, taker); var s := b.orders[taker].side.Opposite();
      && m in b.orders && b.orders[m].side == s
      && b.orders[m].price == b.On(s).best
      && OrderOK(b.orders[m]) && OrderOK(b.orders[taker])
      && b.orders[m].id == m && b.orders[taker].id == taker
  {
    var s := b.orders[taker].side.Opposite();
    var l := b.On(s);
    assert SideOK(s, l, b.orders);
    assert LevelOK(s, l.best, l.levels[l.best].queue, b.orders);
  }

  function FillQty(b: Book, taker: OrderId): int
    requires WF(b) && taker in b.orders && CanMatch(b, taker)
  {
    MakerRests(b, taker);
    Min(b.orders[taker].Remaining(), b.orders[MakerOf(b, taker)].Available())
  }

  function FillOf(b: Book, taker: OrderId): Fill
    requires WF(b) && taker in b.orders && CanMatch(b, taker)
  {
    MakerRests(b, taker);
    Fill(MakerOf(b, taker), taker, b.orders[MakerOf(b, taker)].price, FillQty(b, taker))
  }

  function Traded(b: Book, taker: OrderId): Book
    requires WF(b) && taker in b.orders && CanMatch(b, taker)
  {
    MakerRests(b, taker);
    Trade(b, MakerOf(b, taker), taker, FillQty(b, taker))
  }

  /** One turn of the loop: trade with the front of the best queue, drop the maker once filled. */
  function MatchOnce(h: HashOrder, b: Book, taker: OrderId): Book
    requires WF(b) && taker in b.orders && CanMatch(b, taker)
  {
    MakerRests(b, taker);
    var b1 := Traded(b, taker);
    if b1.orders[MakerOf(b, taker)].IsFilled() then Remove(h, b1, MakerOf(b, taker)) else b1
  }

  /** A display slice is never seen consumed: the replenish branch of the loop is dead. */
  lemma NeverReplenishes(o: Order)
    requires OrderOK(o) && o.kind.Iceberg?
    ensures o.display - o.filled % o.display >= 1
  {
  }

  lemma TradedOK(b: Book, taker: OrderId)
    requires WF(b) && taker in b.orders && CanMatch(b, taker)
    ensures CanTrade(b, MakerOf(b, taker), taker, FillQty(b, taker))
    ensures WF(Traded(b, taker))
  {
    MakerRests(b, taker);
    TradeWF(b, MakerOf(b, taker), taker, FillQty(b, taker));
  }

  function TradedOrders(b: Book, taker: OrderId): map<OrderId, Order>
    requires WF(b) && taker in b.orders && CanMatch(b, taker)
  {
    MakerRests(b, taker);
    var m, q := MakerOf(b, taker), FillQty(b, taker);
    b.orders[m := Filled(b.orders[m], q)][taker := Filled(b.orders[taker], q)]
  }

  lemma MatchOnceOrders(h: HashOrder, b: Book, taker: OrderId)
    requires WF(b) && taker in b.orders && CanMatch(b, taker)
    ensures var m := MakerOf(b, taker);
      && m in b.orders && m != taker
      && MatchOnce(h, b, taker).orders
         == if FillQty(b, taker) == b.orders[m].Remaining() then TradedOrders(b, taker) - {m}
            else TradedOrders(b, taker)
  {
    var m := MakerOf(b, taker);
    MakerRests(b, taker);
    assert Traded(b, taker).orders == TradedOrders(b, taker);
    assert TradedOrders(b, taker)[m].IsFilled() <==> FillQty(b, taker) == b.orders[m].Remaining();
  }

  /** Each turn fills something or retires a maker: the loop ends, even past makers with nothing left. */
  lemma MatchOnceWF(h: HashOrder, b: Book, taker: OrderId)
    requires WF(b) && taker in b.orders && CanMatch(b, taker)
    ensures WF(MatchOnce(h, b, taker))
    ensures taker in MatchOnce(h, b, taker).orders
    ensures 0 <= MatchOnce(h, b, taker).orders[taker].Remaining()
    ensures MatchOnce(h, b, taker).orders[taker].Remaining() + |MatchOnce(h, b, taker).orders|
         <  b.orders[taker].Remaining() + |b.orders|
  {
    var m := MakerOf(b, taker);
    MakerRests(b, taker);
    TradedOK(b, taker);
    TradeOrders(b, m, taker, FillQty(b, taker));
    var b1 := Traded(b, taker);
    assert b1.orders.Keys == b.orders.Keys;
    assert |b1.orders.Keys| == |b.orders.Keys|;
    if b1.orders[m].IsFilled() {
      RemoveWF(h, b1, m);
    }
  }

  /** match_order. */
  function Match(h: HashOrder, b: Book, taker: OrderId): MatchResult
    requires WF(b) && taker in b.orders
    decreases b.orders[taker].Remaining() + |b.orders|
  {
    if !CanMatch(b, taker) then MatchResult(b, []) else
    MatchOnceWF(h, b, taker);
    assert b.orders[taker].Remaining() > 0;
    var rest := Match(h, MatchOnce(h, b, taker), taker);
    MatchResult(rest.book, [FillOf(b, taker)] + rest.fills)
  }

  // ---------------------------------------------------------------- accounting

  function SumQty(fills: seq<Fill>): int {
    if fills == [] then 0 else fills[0].qty + SumQty(fills[1..])
  }

  /** The quantity these fills trade for order x, on whichever side of the trade it is. */
  function FilledIn(fills: seq<Fill>, x: OrderId): int {
    if fills == [] then 0
    else (if fills[0].maker == x || fills[0].taker == x then fills[0].qty else 0) + FilledIn(fills[1..], x)
  }

  function Rem(b: Book, x: OrderId): int {
    if x in b.orders then b.orders[x].Remaining() else 0
  }

  /** What the fills did to order x: its filled quantity grew by exactly what it traded, and if it is
      gone it traded all it had left. */
  ghost predicate Accounted(orders: map<OrderId, Order>, orders': map<OrderId, Order>, fills: seq<Fill>, x: OrderId) {
    if x in orders' then x in orders && orders'[x] == Filled(orders[x], FilledIn(fills, x))
    else FilledIn(fills, x) == if x in orders then orders[x].Remaining() else 0
  }

  lemma MatchOnceAccounts(h: HashOrder, b: Book, taker: OrderId, rest: seq<Fill>, orders': map<OrderId, Order>,
      x: OrderId)
    requires WF(b) && taker in b.orders && CanMatch(b, taker)
    requires Accounted(MatchOnce(h, b, taker).orders, orders', rest, x)
    ensures Accounted(b.orders, orders', [FillOf(b, taker)] + rest, x)
  {
    hide WF, CanMatch, MatchOnce;
    MatchOnceOrders(h, b, taker);
    var fills := [FillOf(b, taker)] + rest;
    assert fills[1..] == rest;
    assert FilledIn(fills, x) == (if x == MakerOf(b, taker) || x == taker then FillQty(b, taker) else 0)
        + FilledIn(rest, x);
  }

  /** Over the whole match, every order of the book is accounted for by the fills emitted. */
  lemma {:induction false} MatchAccounts(h: HashOrder, b: Book, taker: OrderId, x: OrderId)
    requires WF(b) && taker in b.orders
    ensures Accounted(b.orders, Match(h, b, taker).book.orders, Match(h, b, taker).fills, x)
    decreases b.orders[taker].Remaining() + |b.orders|
  {
    if CanMatch(b, taker) {
      MatchOnceWF(h, b, taker);
      var b' := MatchOnce(h, b, taker);
      MatchAccounts(h, b', taker, x);
      MatchOnceAccounts(h, b, taker, Match(h, b', taker).fills, Match(h, b', taker).book.orders, x);
    }
  }

  /** The match ends well-formed, with the taker still in the book, unable to match further. */
  lemma {:induction false} MatchWF(h: HashOrder, b: Book, taker: OrderId)
    requires WF(b) && taker in b.orders
    ensures var r := Match(h, b, taker);
      && WF(r.book)
      && taker in r.book.orders
      && !CanMatch(r.book, taker)
      && r.book.capacity == b.capacity
      && |r.book.orders| <= |b.orders|
    decreases b.orders[taker].Remaining() + |b.orders|
  {
    if CanMatch(b, taker) {
      MatchOnceWF(h, b, taker);
      MatchOnceFrame(h, b, taker);
      MatchWF(h, MatchOnce(h, b, taker), taker);
      MatchUnfolds(h, b, taker);
    }
  }

  // ---------------------------------------------------------------- frames of the two sides

  lemma MatchOnceFrame(h: HashOrder, b: Book, taker: OrderId)
    requires WF(b) && taker in b.orders && CanMatch(b, taker)
    ensures var t, b', q := b.orders[taker], MatchOnce(h, b, taker), FillQty(b, taker);
      && b'.capacity == b.capacity
      && b'.On(t.side) == Reduced(b.On(t.side), t.price, q)
      && |b'.orders| <= |b.orders|
  {
    var m := MakerOf(b, taker);
    MakerRests(b, taker);
    TradedOK(b, taker);
    TradeLadders(b, m, taker, FillQty(b, taker));
    TradeOrders(b, m, taker, FillQty(b, taker));
    var b1 := Traded(b, taker);
    assert |b1.orders.Keys| == |b.orders.Keys|;
    if b1.orders[m].IsFilled() {
      RemoveWF(h, b1, m);
    }
  }

  lemma ReducedTwice(l: Ladder, p: Tick, q: int, r: int, sum: int)
    requires sum == q + r
    ensures Reduced(Reduced(l, p, q), p, r) == Reduced(l, p, sum)
  {
  }

  lemma ReducedByZero(l: Ladder, p: Tick)
    ensures Reduced(l, p, 0) == l
  {
    if p in l.levels {
      assert l.levels[p := l.levels[p]] == l.levels;
    }
  }

  lemma TakerAfterOnce(h: HashOrder, b: Book, taker: OrderId)
    requires WF(b) && taker in b.orders && CanMatch(b, taker)
    ensures taker in MatchOnce(h, b, taker).orders
    ensures MatchOnce(h, b, taker).orders[taker] == Filled(b.orders[taker], FillQty(b, taker))
  {
    MatchOnceOrders(h, b, taker);
  }

  lemma MatchUnfolds(h: HashOrder, b: Book, taker: OrderId)
    requires WF(b) && taker in b.orders && CanMatch(b, taker)
    ensures var b' := MatchOnce(h, b, taker);
      && WF(b') && taker in b'.orders
      && Match(h, b, taker).book == Match(h, b', taker).book
      && Match(h, b, taker).fills == [FillOf(b, taker)] + Match(h, b', taker).fills
      && Match(h, b, taker).fills[1..] == Match(h, b', taker).fills
      && SumQty(Match(h, b, taker).fills) == FillQty(b, taker) + SumQty(Match(h, b', taker).fills)
  {
    MatchOnceWF(h, b, taker);
    var fills := Match(h, MatchOnce(h, b, taker), taker).fills;
    assert ([FillOf(b, taker)] + fills)[1..] == fills;
  }

  /** The taker's own side is a frame: only the total of the taker's level moves, by what it traded. */
  lemma {:induction false} MatchOwnSide(h: HashOrder, b: Book, taker: OrderId, s: Side, p: Tick)
    requires WF(b) && taker in b.orders && s == b.orders[taker].side && p == b.orders[taker].price
    ensures Match(h, b, taker).book.On(s) == Reduced(b.On(s), p, SumQty(Match(h, b, taker).fills))
    decreases b.orders[taker].Remaining() + |b.orders|
  {
    if CanMatch(b, taker) {
      var b', q := MatchOnce(h, b, taker), FillQty(b, taker);
      MatchUnfolds(h, b, taker);
      MatchOnceFrame(h, b, taker);
      TakerAfterOnce(h, b, taker);
      MatchOnceWF(h, b, taker);
      MatchOwnSide(h, b', taker, s, p);
      ReducedTwice(b.On(s), p, q, SumQty(Match(h, b', taker).fills), SumQty(Match(h, b, taker).fills));
    } else {
      ReducedByZero(b.On(s), p);
    }
  }

  /** The opposite side after one turn. */
  lemma MatchOnceOpposite(h: HashOrder, b: Book, taker: OrderId)
    requires WF(b) && taker in b.orders && CanMatch(b, taker)
    ensures var s := b.orders[taker].side.Opposite();
      var m, q := MakerOf(b, taker), FillQty(b, taker);
      var l, l' := b.On(s), MatchOnce(h, b, taker).On(s);
      && m in b.orders
      && l' == if q == b.orders[m].Remaining()
               then Unqueued(h, b.scans, s, Reduced(l, l.best, q), m, l.best, 0)
               else Reduced(l, l.best, q)
  {
    var m := MakerOf(b, taker);
    MakerRests(b, taker);
    TradedOK(b, taker);
    TradeLadders(b, m, taker, FillQty(b, taker));
    TradeOrders(b, m, taker, FillQty(b, taker));
  }

  /** The cache of the side being walked is right at every turn, and no price appears on it. */
  lemma MatchOnceCache(h: HashOrder, b: Book, taker: OrderId)
    requires WF(b) && taker in b.orders && CanMatch(b, taker)
    requires var s := b.orders[taker].side.Opposite(); CacheOK(s, b.On(s))
    ensures var s := b.orders[taker].side.Opposite(); var b' := MatchOnce(h, b, taker);
      CacheOK(s, b'.On(s)) && b'.On(s).levels.Keys <= b.On(s).levels.Keys
  {
    var s := b.orders[taker].side.Opposite();
    var l := b.On(s);
    MatchOnceOpposite(h, b, taker);
    var r := Reduced(l, l.best, FillQty(b, taker));
    ReducedQueues(l, l.best, FillQty(b, taker));
    UnqueuedOnlyDrops(h, b.scans, s, r, MakerOf(b, taker), l.best, 0);
    hide WF, CanMatch, MatchOnce, CacheOK, Unqueued, Reduced, SameQueues;
    SameQueuesCacheOK(s, l, r);
    UnqueuedCacheOK(h, b.scans, s, r, MakerOf(b, taker), l.best, 0);
  }

  lemma ReducedQueues(l: Ladder, p: Tick, q: int)
    ensures SameQueues(l, Reduced(l, p, q)) && Reduced(l, p, q).levels.Keys == l.levels.Keys
  {
  }

  lemma {:induction false} MatchCache(h: HashOrder, b: Book, taker: OrderId)
    requires WF(b) && taker in b.orders
    requires var s := b.orders[taker].side.Opposite(); CacheOK(s, b.On(s))
    ensures var s := b.orders[taker].side.Opposite(); var b' := Match(h, b, taker).book;
      CacheOK(s, b'.On(s)) && b'.On(s).levels.Keys <= b.On(s).levels.Keys
    decreases b.orders[taker].Remaining() + |b.orders|
  {
    if CanMatch(b, taker) {
      MatchOnceWF(h, b, taker);
      MatchOnceOrders(h, b, taker);
      MatchOnceCache(h, b, taker);
      MatchCache(h, MatchOnce(h, b, taker), taker);
      MatchUnfolds(h, b, taker);
    }
  }
}
