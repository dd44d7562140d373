/** The limit order book as a value: what order_book.cpp keeps, with pointers and pool slots
    abstracted into an id-indexed map of orders and one FIFO queue of ids per price. */
module LimitOrderBook {
  import opened Types
  import opened Queues

  datatype Level = Level(queue: seq<OrderId>, total: int)

  /** One side of the book: its price levels and the cached best price. */
  datatype Ladder = Ladder(levels: map<Tick, Level>, best: Tick)

  datatype Book = Book(
    orders: map<OrderId, Order>,
    bids: Ladder,
    asks: Ladder,
    capacity: nat,
    scans: nat)
  {
    function On(s: Side): Ladder {
      if s.Bid? then bids else asks
    }

    function With(s: Side, l: Ladder): Book {
      if s.Bid? then this.(bids := l) else this.(asks := l)
    }
  }

  function EmptyBook(capacity: nat): Book {
    Book(map[], Ladder(map[], INVALID_PRICE), Ladder(map[], INVALID_PRICE), capacity, 0)
  }

  // ---------------------------------------------------------------- cached best price

  /** The cache update made when price p appears on side s. */
  function Improve(s: Side, best: Tick, p: Tick): Tick {
    if best == INVALID_PRICE || Better(s, p, best) then p else best
  }

  /** The cache after a full scan that meets the prices in the given order. */
  function Scan(s: Side, prices: seq<Tick>): Tick {
    if prices == [] then INVALID_PRICE
    else Improve(s, Scan(s, prices[..|prices| - 1]), prices[|prices| - 1])
  }

  /** The cache is right: INVALID_PRICE exactly on an empty side, otherwise the best price. */
  ghost predicate CacheOK(s: Side, l: Ladder) {
    && INVALID_PRICE !in l.levels
    && (l.levels == map[] ==> l.best == INVALID_PRICE)
    && (l.levels != map[] ==> l.best in l.levels)
    && (forall p :: p in l.levels ==> !Better(s, p, l.best))
  }

  // ---------------------------------------------------------------- operations

  function LevelAt(l: Ladder, p: Tick): Level {
    if p in l.levels then l.levels[p] else Level([], 0)
  }

  /** PriceLevel::push_back at price p, creating the level if there is none. */
  function Pushed(s: Side, l: Ladder, id: OrderId, p: Tick, shown: int): Ladder {
    var lev := LevelAt(l, p);
    Ladder(l.levels[p := Level(lev.queue + [id], lev.total + shown)], Improve(s, l.best, p))
  }

  /** Puts o at the back of its level; the level's total grows by the shown quantity. */
  function Insert(b: Book, o: Order, shown: int): Book {
    b.With(o.side, Pushed(o.side, b.On(o.side), o.id, o.price, shown))
     .(orders := b.orders[o.id := o])
  }

  function LimitOrder(id: OrderId, s: Side, p: Tick, qty: int, ts: nat): Order {
    Order(id, s, Limit, p, qty, 0, ts, 0, 0)
  }

  function IcebergOrder(id: OrderId, s: Side, p: Tick, qty: int, display: int, ts: nat): Order {
    Order(id, s, Iceberg, p, qty, 0, ts, display, qty - display)
  }

  /** An id already in the book, or an exhausted pool, refuses the order. */
  predicate Admits(b: Book, id: OrderId) {
    id !in b.orders && |b.orders| < b.capacity
  }

  function AddOrder(b: Book, id: OrderId, s: Side, p: Tick, qty: int, ts: nat): Book {
    if Admits(b, id) then Insert(b, LimitOrder(id, s, p, qty, ts), qty) else b
  }

  function AddIceberg(b: Book, id: OrderId, s: Side, p: Tick, qty: int, display: int, ts: nat): Book {
    if Admits(b, id) then Insert(b, IcebergOrder(id, s, p, qty, display, ts), display) else b
  }

  /** A ladder after id left the queue at price p: an emptied level goes, and if it was the best
      level the cache is found again by scanning the prices that are left. */
  function Unqueued(h: HashOrder, n: nat, s: Side, l: Ladder, id: OrderId, p: Tick, remaining: int): Ladder {
    if p !in l.levels then l else
    var queue := Without(l.levels[p].queue, id);
    if queue != [] then l.(levels := l.levels[p := Level(queue, l.levels[p].total - remaining)]) else
    var levels := l.levels - {p};
    Ladder(levels, if p == l.best then Scan(s, h(n, levels.Keys)) else l.best)
  }

  predicate Rescans(l: Ladder, id: OrderId, p: Tick) {
    p in l.levels && p == l.best && Without(l.levels[p].queue, id) == []
  }

  /** remove_order_from_level. */
  function Detach(h: HashOrder, b: Book, id: OrderId): Book
    requires id in b.orders
  {
    var o := b.orders[id];
    var l := b.On(o.side);
    b.With(o.side, Unqueued(h, b.scans, o.side, l, id, o.price, o.Remaining()))
     .(scans := b.scans + if Rescans(l, id, o.price) then 1 else 0)
  }

  /** Detach and give the slot back. */
  function Remove(h: HashOrder, b: Book, id: OrderId): Book
    requires id in b.orders
  {
    var d := Detach(h, b, id);
    d.(orders := d.orders - {id})
  }

  function Cancel(h: HashOrder, b: Book, id: OrderId): Book {
    if id in b.orders then Remove(h, b, id) else b
  }

  function Reduced(l: Ladder, p: Tick, q: int): Ladder {
    if p in l.levels then l.(levels := l.levels[p := l.levels[p].(total := l.levels[p].total - q)]) else l
  }

  /** In-place reduction of the remaining quantity; the queue is untouched. */
  function ModifyDown(b: Book, id: OrderId, qty: int): Book
    requires id in b.orders
  {
    var o := b.orders[id];
    b.With(o.side, Reduced(b.On(o.side), o.price, o.Remaining() - qty))
     .(orders := b.orders[id := o.(qty := o.filled + qty)])
  }

  predicate ModifyAllowed(b: Book, id: OrderId, qty: int) {
    id in b.orders && 0 < qty <= b.orders[id].Remaining()
  }

  function Modify(h: HashOrder, b: Book, id: OrderId, p: Tick, qty: int): Book {
    if !ModifyAllowed(b, id, qty) then b else
    var o := b.orders[id];
    if p == o.price then
      if qty < o.Remaining() then ModifyDown(b, id, qty) else b
    else
      var r := Remove(h, b, id);
      if o.kind.Iceberg? then AddIceberg(r, id, o.side, p, qty, o.display, o.ts)
      else AddOrder(r, id, o.side, p, qty, o.ts)
  }

  function Filled(o: Order, q: int): Order {
    o.(filled := o.filled + q)
  }

  /** Both parties of a trade, and the totals of both their levels. */
  function Trade(b: Book, maker: OrderId, taker: OrderId, q: int): Book
    requires maker in b.orders && taker in b.orders
  {
    var m, t := b.orders[maker], b.orders[taker];
    var b1 := b.With(m.side, Reduced(b.On(m.side), m.price, q));
    b1.With(t.side, Reduced(b1.On(t.side), t.price, q))
      .(orders := b.orders[maker := Filled(m, q)][taker := Filled(t, q)])
  }

  // ---------------------------------------------------------------- well-formedness

  ghost predicate OrderOK(o: Order) {
    && 0 <= o.filled <= o.qty
    && (o.kind.Iceberg? ==> o.display > 0)
  }

  ghost predicate LevelOK(s: Side, p: Tick, queue: seq<OrderId>, orders: map<OrderId, Order>) {
    && queue != []
    && NoDup(queue)
    && (forall x :: x in queue ==> x in orders && orders[x].side == s && orders[x].price == p)
  }

  ghost predicate Queued(l: Ladder, p: Tick, id: OrderId) {
    p in l.levels && id in l.levels[p].queue
  }

  /** No bid price beats the cached best bid. With LadderOK: the cache is the maximum, always. */
  ghost predicate BidCacheOK(l: Ladder) {
    forall p :: p in l.levels ==> p <= l.best
  }

  /** One side of the ownership partition: no level is empty, each queue holds orders of that side
      and price once each, and every order of the side is queued at its price. */
  ghost predicate SideOK(s: Side, l: Ladder, orders: map<OrderId, Order>) {
    && (forall p :: p in l.levels ==> LevelOK(s, p, l.levels[p].queue, orders))
    && (forall id :: id in orders && orders[id].side == s ==> Queued(l, orders[id].price, id))
    && (l.best == INVALID_PRICE || l.best in l.levels)
    && (s.Bid? ==> BidCacheOK(l))
  }

  ghost predicate OrdersOK(orders: map<OrderId, Order>) {
    forall id :: id in orders ==> orders[id].id == id && OrderOK(orders[id])
  }

  ghost predicate WF(b: Book) {
    && SideOK(Bid, b.bids, b.orders)
    && SideOK(Ask, b.asks, b.orders)
    && OrdersOK(b.orders)
    && |b.orders| <= b.capacity
  }

  // ---------------------------------------------------------------- scanning

  lemma {:induction false} ScanIsMember(s: Side, xs: seq<Tick>)
    ensures Scan(s, xs) == INVALID_PRICE || Scan(s, xs) in xs
  {
    if xs != [] {
      ScanIsMember(s, xs[..|xs| - 1]);
    }
  }

  /** A scan finds the best price in any visiting order, unless it is an ask scan that meets the
      sentinel itself. */
  lemma {:induction false} ScanIsBest(s: Side, xs: seq<Tick>, k: nat)
    requires k < |xs|
    requires s.Bid? || INVALID_PRICE !in xs
    ensures !Better(s, xs[k], Scan(s, xs))
  {
    var init := xs[..|xs| - 1];
    ScanIsMember(s, init);
    if k < |init| {
      ScanIsBest(s, init, k);
      assert init[k] == xs[k];
    }
  }

  /** The counterpart: an ask scan that meets the sentinel forgets what it saw before it, so its
      result depends on the visiting order. */
  lemma AskScanDependsOnOrder(p: Tick)
    requires p != INVALID_PRICE
    ensures Scan(Ask, [INVALID_PRICE, p]) == p
    ensures Scan(Ask, [p, INVALID_PRICE]) == INVALID_PRICE
  {
    assert [INVALID_PRICE, p][..1] == [INVALID_PRICE];
    assert [p, INVALID_PRICE][..1] == [p];
    assert Scan(Ask, [INVALID_PRICE]) == INVALID_PRICE;
    assert Scan(Ask, [p]) == p;
  }

  /** What a rescan of the keys of a level map yields. */
  lemma RescanOK(h: HashOrder, n: nat, s: Side, levels: map<Tick, Level>)
    ensures var best := Scan(s, h(n, levels.Keys));
      && (best == INVALID_PRICE || best in levels)
      && (s.Bid? ==> BidCacheOK(Ladder(levels, best)))
      && (INVALID_PRICE !in levels ==> CacheOK(s, Ladder(levels, best)))
  {
    var xs := h(n, levels.Keys);
    assert IsOrder(xs, levels.Keys);
    ScanIsMember(s, xs);
    forall p | p in levels && (s.Bid? || INVALID_PRICE !in levels)
      ensures !Better(s, p, Scan(s, xs))
    {
      assert p in levels.Keys;
      var k :| 0 <= k < |xs| && xs[k] == p;
      ScanIsBest(s, xs, k);
    }
    if levels != map[] && INVALID_PRICE !in levels {
      var p :| p in levels;
      assert p in levels.Keys;
      var k :| 0 <= k < |xs| && xs[k] == p;
      assert !Better(s, p, Scan(s, xs));
      ScanNotInvalid(s, xs);
    }
  }

  lemma {:induction false} ScanNotInvalid(s: Side, xs: seq<Tick>)
    requires xs != [] && INVALID_PRICE !in xs
    ensures Scan(s, xs) != INVALID_PRICE
  {
    if |xs| > 1 {
      ScanNotInvalid(s, xs[..|xs| - 1]);
    }
  }
}
