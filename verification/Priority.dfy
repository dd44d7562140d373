/** Price-time priority: the matching loop emits exactly the fills of a greedy walk over the resting
    orders of the opposite side, best price first, front of the queue first. */
module Priority {
  import opened Types
  import opened Queues
  import opened LimitOrderBook
  import opened BookInvariants
  import opened Matching

  // ---------------------------------------------------------------- the specification

  /** The best price of a nonempty set, by definition rather than by cache. */
  ghost function BestPrice(s: Side, prices: set<Tick>): (r: Tick)
    requires prices != {}
    ensures r in prices
    ensures forall p :: p in prices ==> !Better(s, p, r)
  {
    var p :| p in prices;
    if prices == {p} then p else
    assert prices - {p} != {};
    var r := BestPrice(s, prices - {p});
    assert forall q :: q in prices ==> q == p || q in prices - {p};
    if Better(s, p, r) then p else r
  }

  /** What decides whether a taker accepts a price: kind, side and limit, not quantities. */
  function Terms(o: Order): Order {
    o.(qty := 0, filled := 0)
  }

  /** The resting orders the taker may trade with, in price priority and within a price in queue order. */
  ghost function Line(s: Side, levels: map<Tick, Level>, terms: Order): seq<OrderId>
    decreases |levels.Keys|
  {
    if levels == map[] then [] else
    assert levels.Keys != {};
    var p := BestPrice(s, levels.Keys);
    if !terms.Accepts(p) then [] else
    assert (levels - {p}).Keys == levels.Keys - {p};
    levels[p].queue + Line(s, levels - {p}, terms)
  }

  /** A resting order as the walk sees it: an iceberg is taken in slices of at most slice. */
  datatype Quote = Quote(id: OrderId, price: Tick, rem: int, slice: int)

  function QuoteOf(o: Order): Quote {
    Quote(o.id, o.price, o.Remaining(), if o.kind.Iceberg? then o.display else o.Remaining())
  }

  function QuoteAt(orders: map<OrderId, Order>, id: OrderId): Quote {
    if id in orders then QuoteOf(orders[id]) else Quote(id, 0, 0, 0)
  }

  function Quotes(orders: map<OrderId, Order>, line: seq<OrderId>): seq<Quote> {
    seq(|line|, i requires 0 <= i < |line| => QuoteAt(orders, line[i]))
  }

  /** n cut into slices of at most k. */
  function Slices(n: int, k: int): seq<int>
    decreases n
  {
    if n <= k || k <= 0 then [n] else [k] + Slices(n - k, k)
  }

  function SliceFills(taker: OrderId, q: Quote, parts: seq<int>): seq<Fill> {
    seq(|parts|, i requires 0 <= i < |parts| => Fill(q.id, taker, q.price, parts[i]))
  }

  /** The greedy walk: each quote in turn gives min(wanted, remaining), cut into its slices. */
  function Greedy(taker: OrderId, want: int, quotes: seq<Quote>): seq<Fill>
    decreases |quotes|
  {
    if want <= 0 || quotes == [] then [] else
    var share := Min(want, quotes[0].rem);
    SliceFills(taker, quotes[0], Slices(share, quotes[0].slice)) + Greedy(taker, want - share, quotes[1..])
  }

  ghost function EligibleQuotes(b: Book, taker: OrderId): seq<Quote>
    requires taker in b.orders
  {
    var t := b.orders[taker];
    Quotes(b.orders, Line(t.side.Opposite(), b.On(t.side.Opposite()).levels, Terms(t)))
  }

  // ---------------------------------------------------------------- the line of makers

  lemma {:induction false} LineMembers(s: Side, levels: map<Tick, Level>, terms: Order, x: OrderId)
    requires x in Line(s, levels, terms)
    ensures exists p :: p in levels && x in levels[p].queue && terms.Accepts(p)
    decreases |levels.Keys|
  {
    var p := BestPrice(s, levels.Keys);
    if x !in levels[p].queue {
      assert (levels - {p}).Keys == levels.Keys - {p};
      LineMembers(s, levels - {p}, terms, x);
    }
  }

  lemma {:induction false} LineNoDup(s: Side, levels: map<Tick, Level>, terms: Order, orders: map<OrderId, Order>)
    requires forall p :: p in levels ==> LevelOK(s, p, levels[p].queue, orders)
    ensures NoDup(Line(s, levels, terms))
    decreases |levels.Keys|
  {
    if levels != map[] {
      var p := BestPrice(s, levels.Keys);
      var rest := levels - {p};
      assert rest.Keys == levels.Keys - {p};
      LineNoDup(s, rest, terms, orders);
      assert LevelOK(s, p, levels[p].queue, orders);
      forall x | x in Line(s, rest, terms)
        ensures x !in levels[p].queue
      {
        LineMembers(s, rest, terms, x);
        var p' :| p' in rest && x in rest[p'].queue;
        assert LevelOK(s, p', levels[p'].queue, orders);
      }
      NoDupConcat(levels[p].queue, Line(s, rest, terms));
    }
  }

  /** A right cache names the best price. */
  lemma CachedBest(s: Side, l: Ladder)
    requires CacheOK(s, l) && l.levels != map[]
    ensures l.levels.Keys != {} && l.best == BestPrice(s, l.levels.Keys)
  {
    assert l.best in l.levels.Keys;
    var p := BestPrice(s, l.levels.Keys);
    assert !Better(s, p, l.best) && !Better(s, l.best, p);
  }

  lemma LineFront(s: Side, l: Ladder, terms: Order)
    requires CacheOK(s, l) && l.levels != map[] && terms.Accepts(l.best)
    ensures Line(s, l.levels, terms) == l.levels[l.best].queue + Line(s, l.levels - {l.best}, terms)
  {
    CachedBest(s, l);
  }

  lemma LineEmpty(s: Side, l: Ladder, terms: Order)
    requires CacheOK(s, l) && (l.levels == map[] || !terms.Accepts(l.best))
    ensures Line(s, l.levels, terms) == []
  {
    if l.levels != map[] {
      CachedBest(s, l);
    }
  }

  /** Reducing totals leaves the line alone. */
  lemma LineReduced(s: Side, l: Ladder, q: int, terms: Order)
    requires CacheOK(s, l) && l.levels != map[] && terms.Accepts(l.best)
    ensures Line(s, Reduced(l, l.best, q).levels, terms) == Line(s, l.levels, terms)
  {
    var l' := Reduced(l, l.best, q);
    SameQueuesCacheOK(s, l, l');
    LineFront(s, l, terms);
    LineFront(s, l', terms);
    assert l'.levels - {l.best} == l.levels - {l.best};
  }

  lemma LineUnqueuedLevel(s: Side, l: Ladder, l': Ladder, terms: Order)
    requires CacheOK(s, l) && CacheOK(s, l') && l.levels != map[] && terms.Accepts(l.best)
    requires l.levels[l.best].queue != []
    requires |l.levels[l.best].queue| == 1 ==> l'.levels == l.levels - {l.best}
    requires |l.levels[l.best].queue| > 1 ==>
               && l.best in l'.levels && l'.levels[l.best].queue == l.levels[l.best].queue[1..]
               && l'.best == l.best && l'.levels - {l.best} == l.levels - {l.best}
    ensures Line(s, l.levels, terms) != []
    ensures Line(s, l.levels, terms)[0] == l.levels[l.best].queue[0]
    ensures Line(s, l'.levels, terms) == Line(s, l.levels, terms)[1..]
  {
    var queue := l.levels[l.best].queue;
    LineFront(s, l, terms);
    if queue[1..] != [] {
      LineFront(s, l', terms);
    } else {
      assert queue == [queue[0]];
    }
  }

  /** Retiring the front of the best queue retires the front of the line. */
  lemma LineUnqueued(h: HashOrder, n: nat, s: Side, l: Ladder, terms: Order, rem: int)
    requires CacheOK(s, l) && l.levels != map[] && terms.Accepts(l.best) && l.levels[l.best].queue != []
    ensures var m := l.levels[l.best].queue[0];
      && Line(s, l.levels, terms) != []
      && Line(s, l.levels, terms)[0] == m
      && Line(s, Unqueued(h, n, s, l, m, l.best, rem).levels, terms) == Line(s, l.levels, terms)[1..]
  {
    var queue := l.levels[l.best].queue;
    var l' := Unqueued(h, n, s, l, queue[0], l.best, rem);
    UnqueuedCacheOK(h, n, s, l, queue[0], l.best, rem);
    assert Without(queue, queue[0]) == queue[1..];
    assert queue[1..] != [] ==> l'.levels - {l.best} == l.levels - {l.best};
    LineUnqueuedLevel(s, l, l', terms);
  }

  // ---------------------------------------------------------------- one turn against the walk

  /** One turn with maker o takes the first slice off the walk. */
  lemma GreedyStep(taker: OrderId, want: int, want': int, quotes: seq<Quote>, o: Order)
    requires want > 0 && quotes != [] && quotes[0] == QuoteOf(o) && OrderOK(o)
    requires want' == want - Min(want, o.Available())
    ensures var f := Min(want, o.Available());
      Greedy(taker, want, quotes)
      == [Fill(o.id, taker, o.price, f)]
         + Greedy(taker, want', if f == o.Remaining() then quotes[1..] else [QuoteOf(Filled(o, f))] + quotes[1..])
  {
    var q := quotes[0];
    var share, f := Min(want, q.rem), Min(want, o.Available());
    if share <= q.slice {
      assert f == share && Slices(share, q.slice) == [f];
      assert SliceFills(taker, q, [f]) == [Fill(q.id, taker, q.price, f)];
    } else {
      GreedySlice(taker, want, quotes, QuoteOf(Filled(o, f)));
    }
  }

  lemma GreedySlice(taker: OrderId, want: int, quotes: seq<Quote>, q': Quote)
    requires want > 0 && quotes != [] && 0 < quotes[0].slice < Min(want, quotes[0].rem)
    requires q' == quotes[0].(rem := quotes[0].rem - quotes[0].slice)
    ensures var q := quotes[0];
      Greedy(taker, want, quotes) == [Fill(q.id, taker, q.price, q.slice)]
          + Greedy(taker, want - q.slice, [q'] + quotes[1..])
  {
    var q := quotes[0];
    var share, f := Min(want, q.rem), q.slice;
    var parts := Slices(share - f, f);
    assert Slices(share, f) == [f] + parts;
    assert SliceFills(taker, q, [f] + parts) == [Fill(q.id, taker, q.price, f)] + SliceFills(taker, q', parts);
    var quotes' := [q'] + quotes[1..];
    assert Min(want - f, q'.rem) == share - f && quotes'[1..] == quotes[1..];
  }

  /** The loop goes on exactly while the walk has a quote to offer. */
  lemma EligibleFront(b: Book, taker: OrderId)
    requires WF(b) && taker in b.orders
    requires var s := b.orders[taker].side.Opposite(); CacheOK(s, b.On(s))
    ensures CanMatch(b, taker) <==> b.orders[taker].Remaining() > 0 && EligibleQuotes(b, taker) != []
    ensures CanMatch(b, taker) ==> EligibleQuotes(b, taker)[0] == QuoteAt(b.orders, MakerOf(b, taker))
  {
    var t := b.orders[taker];
    var s, terms := t.side.Opposite(), Terms(t);
    var l := b.On(s);
    assert SideOK(s, l, b.orders);
    if l.levels == map[] || !terms.Accepts(l.best) {
      LineEmpty(s, l, terms);
    } else {
      assert LevelOK(s, l.best, l.levels[l.best].queue, b.orders);
      LineFront(s, l, terms);
    }
  }

  lemma LineAfterOnce(h: HashOrder, b: Book, taker: OrderId)
    requires WF(b) && taker in b.orders && CanMatch(b, taker)
    requires var s := b.orders[taker].side.Opposite(); CacheOK(s, b.On(s))
    ensures var t, m := b.orders[taker], MakerOf(b, taker); var s := t.side.Opposite();
      var line, line' := Line(s, b.On(s).levels, Terms(t)), Line(s, MatchOnce(h, b, taker).On(s).levels, Terms(t));
      && m in b.orders && line != [] && line[0] == m
      && line' == if FillQty(b, taker) == b.orders[m].Remaining() then line[1..] else line
  {
    var t := b.orders[taker];
    var s, terms, q := t.side.Opposite(), Terms(t), FillQty(b, taker);
    var l := b.On(s);
    assert SideOK(s, l, b.orders);
    assert forall p :: p in l.levels ==> LevelOK(s, p, l.levels[p].queue, b.orders);
    MatchOnceOpposite(h, b, taker);
    LineFront(s, l, terms);
    LineReduced(s, l, q, terms);
    var r := Reduced(l, l.best, q);
    SameQueuesCacheOK(s, l, r);
    LineUnqueued(h, b.scans, s, r, terms, 0);
  }

  lemma OthersAfterOnce(h: HashOrder, b: Book, taker: OrderId, x: OrderId)
    requires WF(b) && taker in b.orders && CanMatch(b, taker)
    requires x in b.orders && x != taker && x != MakerOf(b, taker)
    ensures x in MatchOnce(h, b, taker).orders && MatchOnce(h, b, taker).orders[x] == b.orders[x]
  {
    hide WF, CanMatch, MatchOnce;
    MatchOnceOrders(h, b, taker);
  }

  lemma MakerAfterOnce(h: HashOrder, b: Book, taker: OrderId)
    requires WF(b) && taker in b.orders && CanMatch(b, taker)
    ensures var m := MakerOf(b, taker); var b' := MatchOnce(h, b, taker);
      && m in b.orders
      && (if FillQty(b, taker) == b.orders[m].Remaining() then m !in b'.orders
          else m in b'.orders && b'.orders[m] == Filled(b.orders[m], FillQty(b, taker)))
  {
    hide WF, CanMatch, MatchOnce;
    MatchOnceOrders(h, b, taker);
  }

  lemma LineIsOpposite(s: Side, l: Ladder, terms: Order, orders: map<OrderId, Order>, x: OrderId)
    requires SideOK(s, l, orders) && x in Line(s, l.levels, terms)
    ensures x in orders && orders[x].side == s
  {
    LineMembers(s, l.levels, terms, x);
    var p :| p in l.levels && x in l.levels[p].queue;
    assert LevelOK(s, p, l.levels[p].queue, orders);
  }

  lemma QuotesTail(orders: map<OrderId, Order>, orders': map<OrderId, Order>, line: seq<OrderId>)
    requires line != []
    requires forall i :: 1 <= i < |line| ==> QuoteAt(orders', line[i]) == QuoteAt(orders, line[i])
    ensures Quotes(orders', line[1..]) == Quotes(orders, line)[1..]
    ensures Quotes(orders', line) == [QuoteAt(orders', line[0])] + Quotes(orders, line)[1..]
  {
  }

  lemma QuotesAfterOnce(h: HashOrder, b: Book, taker: OrderId)
    requires WF(b) && taker in b.orders && CanMatch(b, taker)
    requires var s := b.orders[taker].side.Opposite(); CacheOK(s, b.On(s))
    ensures taker in MatchOnce(h, b, taker).orders
    ensures var m, qs := MakerOf(b, taker), EligibleQuotes(b, taker);
      var qs' := EligibleQuotes(MatchOnce(h, b, taker), taker);
      && m in b.orders && qs != []
      && qs' == if FillQty(b, taker) == b.orders[m].Remaining() then qs[1..]
                else [QuoteOf(Filled(b.orders[m], FillQty(b, taker)))] + qs[1..]
  {
    var t, b' := b.orders[taker], MatchOnce(h, b, taker);
    var s := t.side.Opposite();
    var l := b.On(s);
    var line := Line(s, l.levels, Terms(t));
    LineAfterOnce(h, b, taker);
    TakerAfterOnce(h, b, taker);
    MakerAfterOnce(h, b, taker);
    assert SideOK(s, l, b.orders);
    LineNoDup(s, l.levels, Terms(t), b.orders);
    forall i | 1 <= i < |line|
      ensures QuoteAt(b'.orders, line[i]) == QuoteAt(b.orders, line[i])
    {
      assert line[i] != line[0];
      LineIsOpposite(s, l, Terms(t), b.orders, line[i]);
      OthersAfterOnce(h, b, taker, line[i]);
    }
    QuotesTail(b.orders, b'.orders, line);
  }

  lemma GreedyAfterOnce(h: HashOrder, b: Book, taker: OrderId)
    requires WF(b) && taker in b.orders && CanMatch(b, taker)
    requires var s := b.orders[taker].side.Opposite(); CacheOK(s, b.On(s))
    ensures var b' := MatchOnce(h, b, taker);
      && taker in b'.orders
      && Greedy(taker, b.orders[taker].Remaining(), EligibleQuotes(b, taker))
         == [FillOf(b, taker)] + Greedy(taker, b'.orders[taker].Remaining(), EligibleQuotes(b', taker))
  {
    MakerRests(b, taker);
    EligibleFront(b, taker);
    QuotesAfterOnce(h, b, taker);
    TakerAfterOnce(h, b, taker);
    GreedyStep(taker, b.orders[taker].Remaining(), MatchOnce(h, b, taker).orders[taker].Remaining(),
               EligibleQuotes(b, taker), b.orders[MakerOf(b, taker)]);
  }

  /** Price-time priority. From any book whose opposite cache is right, the fills are exactly the
      greedy walk's: prices best first, queues front first, icebergs in display slices. Makers with
      nothing left are passed with a fill of zero. */
  lemma {:induction false} MatchIsGreedy(h: HashOrder, b: Book, taker: OrderId)
    requires WF(b) && taker in b.orders
    requires var s := b.orders[taker].side.Opposite(); CacheOK(s, b.On(s))
    ensures Match(h, b, taker).fills == Greedy(taker, b.orders[taker].Remaining(), EligibleQuotes(b, taker))
    decreases b.orders[taker].Remaining() + |b.orders|
  {
    EligibleFront(b, taker);
    if CanMatch(b, taker) {
      MatchUnfolds(h, b, taker);
      MatchOnceWF(h, b, taker);
      TakerAfterOnce(h, b, taker);
      MatchOnceCache(h, b, taker);
      MatchIsGreedy(h, MatchOnce(h, b, taker), taker);
      GreedyAfterOnce(h, b, taker);
    }
  }
}
