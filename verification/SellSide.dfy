/** Sells are matched in price-time priority in every book, over all bids but those at the sentinel
    price; and so over all bids exactly if these do not matter. */
module SellSide {
  import opened Types
  import opened Queues
  import opened LimitOrderBook
  import opened BookInvariants
  import opened Matching
  import opened Priority
  import opened Execution
  import opened Caches

  /** A side without its level at the sentinel price. */
  function Visible(l: Ladder): Ladder {
    Ladder(l.levels - {INVALID_PRICE}, l.best)
  }

  /** The bids a sell can see, in price-time order. */
  ghost function SeenQuotes(b: Book, taker: OrderId): seq<Quote>
    requires taker in b.orders
  {
    Quotes(b.orders, Line(Bid, Visible(b.bids).levels, Terms(b.orders[taker])))
  }

  lemma VisibleLadder(l: Ladder)
    requires (l.best == INVALID_PRICE || l.best in l.levels) && BidCacheOK(l)
    ensures CacheOK(Bid, Visible(l))
  {
    var levels := Visible(l).levels;
    if levels == map[] {
      assert l.best in l.levels && l.best != INVALID_PRICE ==> l.best in levels;
    } else {
      var p :| p in levels;
      assert p <= l.best;
    }
  }

  /** Among the visible bids the cache is right in every well-formed book. */
  lemma VisibleCache(b: Book)
    requires WF(b)
    ensures CacheOK(Bid, Visible(b.bids))
  {
    assert SideOK(Bid, b.bids, b.orders);
    hide WF, CacheOK;
    VisibleLadder(b.bids);
  }

  lemma VisibleLevels(b: Book)
    requires WF(b)
    ensures forall p :: p in Visible(b.bids).levels ==> LevelOK(Bid, p, Visible(b.bids).levels[p].queue, b.orders)
  {
    assert SideOK(Bid, b.bids, b.orders);
  }

  lemma SeenFront(b: Book, taker: OrderId)
    requires WF(b) && taker in b.orders && b.orders[taker].side.Ask?
    ensures CanMatch(b, taker) <==> b.orders[taker].Remaining() > 0 && SeenQuotes(b, taker) != []
    ensures CanMatch(b, taker) ==> SeenQuotes(b, taker)[0] == QuoteAt(b.orders, MakerOf(b, taker))
  {
    var terms, l := Terms(b.orders[taker]), Visible(b.bids);
    VisibleCache(b);
    VisibleLevels(b);
    if l.levels == map[] || !terms.Accepts(l.best) {
      LineEmpty(Bid, l, terms);
    } else {
      LineFront(Bid, l, terms);
    }
  }

  lemma VisibleReduced(l: Ladder, p: Tick, q: int)
    requires p != INVALID_PRICE
    ensures Visible(Reduced(l, p, q)) == Reduced(Visible(l), p, q)
  {
  }

  /** Retiring the front of the best queue, seen from the other side. */
  lemma VisibleUnqueued(h: HashOrder, n: nat, l: Ladder, id: OrderId)
    requires l.best in l.levels && l.best != INVALID_PRICE && l.levels[l.best].queue != []
    requires id == l.levels[l.best].queue[0] && NoDup(l.levels[l.best].queue)
    ensures var v, v' := Visible(l), Visible(Unqueued(h, n, Bid, l, id, l.best, 0));
      var queue := l.levels[l.best].queue;
      && (|queue| == 1 ==> v'.levels == v.levels - {l.best})
      && (|queue| > 1 ==>
           && l.best in v'.levels && v'.levels[l.best].queue == queue[1..]
           && v'.best == v.best && v'.levels - {l.best} == v.levels - {l.best})
  {
    var queue := l.levels[l.best].queue;
    WithoutAt(queue, 0);
    assert queue[..0] + queue[1..] == queue[1..];
  }

  /** One turn on the bids, as the line of visible makers sees it. */
  lemma VisibleTurn(h: HashOrder, n: nat, l: Ladder, l': Ladder, terms: Order, q: int, gone: bool)
    requires CacheOK(Bid, Visible(l)) && CacheOK(Bid, Visible(l'))
    requires l.best in l.levels && l.best != INVALID_PRICE && terms.Accepts(l.best)
    requires l.levels[l.best].queue != [] && NoDup(l.levels[l.best].queue)
    requires var r := Reduced(l, l.best, q);
      l' == if gone then Unqueued(h, n, Bid, r, l.levels[l.best].queue[0], l.best, 0) else r
    ensures var line, line' := Line(Bid, Visible(l).levels, terms), Line(Bid, Visible(l').levels, terms);
      line != [] && line[0] == l.levels[l.best].queue[0] && line' == if gone then line[1..] else line
  {
    var r, v := Reduced(l, l.best, q), Visible(l);
    VisibleReduced(l, l.best, q);
    LineFront(Bid, v, terms);
    LineReduced(Bid, v, q, terms);
    SameQueuesCacheOK(Bid, v, Visible(r));
    if gone {
      VisibleUnqueued(h, n, r, l.levels[l.best].queue[0]);
      hide CacheOK, Unqueued, Line;
      LineUnqueuedLevel(Bid, Visible(r), Visible(l'), terms);
    }
  }

  lemma SeenLineAfterOnce(h: HashOrder, b: Book, taker: OrderId)
    requires WF(b) && taker in b.orders && CanMatch(b, taker) && b.orders[taker].side.Ask?
    ensures var terms, m := Terms(b.orders[taker]), MakerOf(b, taker);
      var line := Line(Bid, Visible(b.bids).levels, terms);
      var line' := Line(Bid, Visible(MatchOnce(h, b, taker).bids).levels, terms);
      && m in b.orders && line != [] && line[0] == m
      && line' == if FillQty(b, taker) == b.orders[m].Remaining() then line[1..] else line
  {
    var terms, m, q, l := Terms(b.orders[taker]), MakerOf(b, taker), FillQty(b, taker), b.bids;
    VisibleCache(b);
    assert SideOK(Bid, l, b.orders) && LevelOK(Bid, l.best, l.levels[l.best].queue, b.orders);
    MatchOnceOpposite(h, b, taker);
    MatchOnceWF(h, b, taker);
    VisibleCache(MatchOnce(h, b, taker));
    hide WF, CacheOK, MatchOnce, Visible, Line, Unqueued, Reduced;
    VisibleTurn(h, b.scans, l, MatchOnce(h, b, taker).bids, terms, q, q == b.orders[m].Remaining());
  }

  lemma SeenMember(b: Book, terms: Order, x: OrderId)
    requires WF(b) && x in Line(Bid, Visible(b.bids).levels, terms)
    ensures x in b.orders && b.orders[x].side == Bid
  {
    LineMembers(Bid, Visible(b.bids).levels, terms, x);
    VisibleLevels(b);
    var p :| p in Visible(b.bids).levels && x in Visible(b.bids).levels[p].queue;
    assert LevelOK(Bid, p, Visible(b.bids).levels[p].queue, b.orders);
  }

  lemma SeenQuotesAfterOnce(h: HashOrder, b: Book, taker: OrderId)
    requires WF(b) && taker in b.orders && CanMatch(b, taker) && b.orders[taker].side.Ask?
    ensures taker in MatchOnce(h, b, taker).orders
    ensures var m, qs := MakerOf(b, taker), SeenQuotes(b, taker); var qs' := SeenQuotes(MatchOnce(h, b, taker), taker);
      && m in b.orders && qs != []
      && qs' == if FillQty(b, taker) == b.orders[m].Remaining() then qs[1..]
                else [QuoteOf(Filled(b.orders[m], FillQty(b, taker)))] + qs[1..]
  {
    var terms, b' := Terms(b.orders[taker]), MatchOnce(h, b, taker);
    var line := Line(Bid, Visible(b.bids).levels, terms);
    SeenLineAfterOnce(h, b, taker);
    TakerAfterOnce(h, b, taker);
    MakerAfterOnce(h, b, taker);
    VisibleLevels(b);
    LineNoDup(Bid, Visible(b.bids).levels, terms, b.orders);
    hide WF, Visible, Line, CanMatch, MatchOnce;
    forall i | 1 <= i < |line|
      ensures QuoteAt(b'.orders, line[i]) == QuoteAt(b.orders, line[i])
    {
      assert line[i] != line[0];
      SeenMember(b, terms, line[i]);
      OthersAfterOnce(h, b, taker, line[i]);
    }
    QuotesTail(b.orders, b'.orders, line);
  }

  lemma SeenGreedyAfterOnce(h: HashOrder, b: Book, taker: OrderId)
    requires WF(b) && taker in b.orders && CanMatch(b, taker) && b.orders[taker].side.Ask?
    ensures var b' := MatchOnce(h, b, taker);
      && taker in b'.orders
      && Greedy(taker, b.orders[taker].Remaining(), SeenQuotes(b, taker))
         == [FillOf(b, taker)] + Greedy(taker, b'.orders[taker].Remaining(), SeenQuotes(b', taker))
  {
    MakerRests(b, taker);
    SeenFront(b, taker);
    SeenQuotesAfterOnce(h, b, taker);
    TakerAfterOnce(h, b, taker);
    GreedyStep(taker, b.orders[taker].Remaining(), MatchOnce(h, b, taker).orders[taker].Remaining(),
               SeenQuotes(b, taker), b.orders[MakerOf(b, taker)]);
  }

  /** Price-time priority for sells, in every well-formed book: the fills are the greedy walk over the
      visible bids. */
  lemma {:induction false} SellsAreGreedy(h: HashOrder, b: Book, taker: OrderId)
    requires WF(b) && taker in b.orders && b.orders[taker].side.Ask?
    ensures Match(h, b, taker).fills == Greedy(taker, b.orders[taker].Remaining(), SeenQuotes(b, taker))
    decreases b.orders[taker].Remaining() + |b.orders|
  {
    SeenFront(b, taker);
    if CanMatch(b, taker) {
      MatchUnfolds(h, b, taker);
      MatchOnceWF(h, b, taker);
      TakerAfterOnce(h, b, taker);
      SellsAreGreedy(h, MatchOnce(h, b, taker), taker);
      SeenGreedyAfterOnce(h, b, taker);
    }
  }

  /** What the visible bids offer. */
  ghost function SeenLiquidity(b: Book, taker: OrderId): int
    requires taker in b.orders
  {
    SumRem(SeenQuotes(b, taker))
  }

  lemma NeverOverfilled(b: Book, taker: OrderId)
    requires WF(b) && taker in b.orders
    ensures b.orders[taker].Remaining() >= 0
  {
  }

  /** In every well-formed book, a sell is left with what the visible bids could not serve. */
  lemma SellRemainder(h: HashOrder, b: Book, taker: OrderId)
    requires WF(b) && taker in b.orders && b.orders[taker].side.Ask?
    ensures taker in Match(h, b, taker).book.orders
    ensures var want, n := b.orders[taker].Remaining(), SeenLiquidity(b, taker);
      && Match(h, b, taker).book.orders[taker].Remaining() == Max(0, want - n)
      && SumQty(Match(h, b, taker).fills) == Min(want, n)
  {
    hide WF, Match, SeenQuotes, Greedy, SumRem, SumQty, FilledIn, OrderOK;
    var want, qs := b.orders[taker].Remaining(), SeenQuotes(b, taker);
    NeverOverfilled(b, taker);
    SellsAreGreedy(h, b, taker);
    SeenNotNegative(b, taker);
    GreedySum(taker, want, qs);
    MatchTaken(h, b, taker);
    MatchWF(h, b, taker);
    MatchAccounts(h, b, taker, taker);
  }

  lemma {:induction false} MatchTaken(h: HashOrder, b: Book, taker: OrderId)
    requires WF(b) && taker in b.orders
    ensures FilledIn(Match(h, b, taker).fills, taker) == SumQty(Match(h, b, taker).fills)
    decreases b.orders[taker].Remaining() + |b.orders|
  {
    if CanMatch(b, taker) {
      MatchUnfolds(h, b, taker);
      MatchOnceWF(h, b, taker);
      MatchTaken(h, MatchOnce(h, b, taker), taker);
    }
  }

  /** Every fill of a sell is positive exactly if no spent order stands among the visible bids before the
      sell is served. */
  lemma SellPositiveIff(h: HashOrder, b: Book, taker: OrderId)
    requires WF(b) && taker in b.orders && b.orders[taker].side.Ask?
    ensures AllPositive(Match(h, b, taker).fills) <==> !MeetsSpent(b.orders[taker].Remaining(), SeenQuotes(b, taker))
  {
    SellsAreGreedy(h, b, taker);
    SeenNotNegative(b, taker);
    hide WF, Match, SeenQuotes, AllPositive, MeetsSpent;
    GreedyPositiveIff(taker, b.orders[taker].Remaining(), SeenQuotes(b, taker));
  }

  /** And the fills of a sell get no better as the match goes on. */
  lemma SellPricesWorsen(h: HashOrder, b: Book, taker: OrderId)
    requires WF(b) && taker in b.orders && b.orders[taker].side.Ask?
    ensures Worsening(Bid, FillPrices(Match(h, b, taker).fills))
  {
    SellsAreGreedy(h, b, taker);
    SeenNotNegative(b, taker);
    VisibleLevels(b);
    LineWorsens(Bid, Visible(b.bids).levels, Terms(b.orders[taker]), b.orders);
    hide WF, Match, Visible, Line, Greedy, Worsening;
    GreedyWorsens(Bid, taker, b.orders[taker].Remaining(), SeenQuotes(b, taker));
  }

  // ---------------------------------------------------------------- bids at the sentinel

  /** What the line of all bids has behind the visible ones. */
  function AtSentinel(levels: map<Tick, Level>, terms: Order): seq<OrderId> {
    if INVALID_PRICE in levels && terms.Accepts(INVALID_PRICE) then levels[INVALID_PRICE].queue else []
  }

  lemma WorstIsLast(levels: map<Tick, Level>, p: Tick)
    requires levels != map[] && levels.Keys != {} && p == BestPrice(Bid, levels.Keys)
    ensures p == INVALID_PRICE ==> levels.Keys == {INVALID_PRICE}
    ensures p != INVALID_PRICE ==>
      var rest := levels - {INVALID_PRICE};
      rest.Keys != {} && BestPrice(Bid, rest.Keys) == p && rest[p] == levels[p]
  {
    if p == INVALID_PRICE {
      assert forall q :: q in levels.Keys ==> !Better(Bid, q, p);
    } else {
      var rest := levels - {INVALID_PRICE};
      assert p in rest.Keys;
      var q := BestPrice(Bid, rest.Keys);
      assert q in levels.Keys && !Better(Bid, q, p) && !Better(Bid, p, q);
    }
  }

  lemma LineUnfolds(levels: map<Tick, Level>, terms: Order, p: Tick)
    requires levels.Keys != {} && p == BestPrice(Bid, levels.Keys)
    ensures p in levels && (levels - {p}).Keys == levels.Keys - {p}
    ensures Line(Bid, levels, terms)
         == if terms.Accepts(p) then levels[p].queue + Line(Bid, levels - {p}, terms) else []
  {
    assert levels != map[];
  }

  lemma {:induction false} LineSplits(levels: map<Tick, Level>, terms: Order)
    requires terms.side.Ask?
    ensures Line(Bid, levels, terms) == Line(Bid, levels - {INVALID_PRICE}, terms) + AtSentinel(levels, terms)
    decreases |levels.Keys|
  {
    if levels == map[] {
      assert levels - {INVALID_PRICE} == levels;
    } else {
      assert levels.Keys != {};
      var p := BestPrice(Bid, levels.Keys);
      LineUnfolds(levels, terms, p);
      WorstIsLast(levels, p);
      if p == INVALID_PRICE {
        assert levels - {p} == map[];
      } else {
        var seen, rest := levels - {INVALID_PRICE}, levels - {p};
        LineUnfolds(seen, terms, p);
        assert rest - {INVALID_PRICE} == seen - {p} && AtSentinel(rest, terms) == AtSentinel(levels, terms);
        assert !terms.Accepts(p) ==> AtSentinel(levels, terms) == [];
        hide Line, AtSentinel;
        if terms.Accepts(p) {
          LineSplits(rest, terms);
        }
      }
    }
  }

  lemma GreedyUnfolds(taker: OrderId, want: int, qs: seq<Quote>, share: int)
    requires want > 0 && qs != [] && share == Min(want, qs[0].rem)
    ensures Greedy(taker, want, qs)
         == SliceFills(taker, qs[0], Slices(share, qs[0].slice)) + Greedy(taker, want - share, qs[1..])
    ensures SumRem(qs) == qs[0].rem + SumRem(qs[1..])
  {
  }

  /** Walking two stretches of quotes one after the other. */
  lemma {:induction false} GreedyConcat(taker: OrderId, want: int, want': int, qs: seq<Quote>, rs: seq<Quote>)
    requires want >= 0 && forall i :: 0 <= i < |qs| ==> qs[i].rem >= 0
    requires want' == want - Min(want, SumRem(qs))
    ensures Greedy(taker, want, qs + rs) == Greedy(taker, want, qs) + Greedy(taker, want', rs)
    decreases |qs|
  {
    hide Greedy, SumRem, Slices, SliceFills;
    GreedyEnds(taker, want, qs);
    GreedyEnds(taker, want, qs + rs);
    GreedyEnds(taker, want', rs);
    GreedySum(taker, want, qs);
    if qs == [] {
      assert qs + rs == rs;
    } else if want > 0 {
      var share := Min(want, qs[0].rem);
      assert (qs + rs)[0] == qs[0] && (qs + rs)[1..] == qs[1..] + rs;
      GreedyUnfolds(taker, want, qs, share);
      GreedyUnfolds(taker, want, qs + rs, share);
      GreedySum(taker, want - share, qs[1..]);
      GreedyConcat(taker, want - share, want', qs[1..], rs);
    }
  }

  lemma GreedyEnds(taker: OrderId, want: int, qs: seq<Quote>)
    ensures want <= 0 || qs == [] ==> Greedy(taker, want, qs) == []
    ensures qs == [] ==> SumRem(qs) == 0
  {
  }

  /** More quotes behind make a difference exactly if the first ones do not serve. */
  lemma GreedyMore(taker: OrderId, want: int, qs: seq<Quote>, rs: seq<Quote>)
    requires want >= 0 && forall i :: 0 <= i < |qs| ==> qs[i].rem >= 0
    ensures Greedy(taker, want, qs) == Greedy(taker, want, qs + rs) <==> rs == [] || want <= SumRem(qs)
  {
    var want' := want - Min(want, SumRem(qs));
    GreedySum(taker, want, qs);
    GreedyConcat(taker, want, want', qs, rs);
    if want' > 0 && rs != [] {
      GreedyStarts(taker, want', rs);
    } else {
      assert Greedy(taker, want', rs) == [];
    }
    hide Greedy, SumRem;
    assert |Greedy(taker, want, qs + rs)| == |Greedy(taker, want, qs)| + |Greedy(taker, want', rs)|;
  }

  /** Exactly when a sell gets price-time priority over all bids: when none within its reach rests at
      the sentinel, or the others serve it. */
  lemma SellsGreedyIff(h: HashOrder, b: Book, taker: OrderId)
    requires WF(b) && taker in b.orders && b.orders[taker].side.Ask?
    ensures var t := b.orders[taker];
      Match(h, b, taker).fills == Greedy(taker, t.Remaining(), EligibleQuotes(b, taker))
      <==> AtSentinel(b.bids.levels, Terms(t)) == [] || t.Remaining() <= SumRem(SeenQuotes(b, taker))
  {
    var t, qs := b.orders[taker], SeenQuotes(b, taker);
    var rs := Quotes(b.orders, AtSentinel(b.bids.levels, Terms(t)));
    assert t.Remaining() >= 0;
    SellsAreGreedy(h, b, taker);
    SeenNotNegative(b, taker);
    AllQuotes(b, taker);
    hide WF, Match, EligibleQuotes, SeenQuotes, AtSentinel;
    GreedyMore(taker, t.Remaining(), qs, rs);
  }

  lemma AllQuotes(b: Book, taker: OrderId)
    requires taker in b.orders && b.orders[taker].side.Ask?
    ensures EligibleQuotes(b, taker)
         == SeenQuotes(b, taker) + Quotes(b.orders, AtSentinel(b.bids.levels, Terms(b.orders[taker])))
  {
    LineSplits(b.bids.levels, Terms(b.orders[taker]));
    hide Line, AtSentinel;
  }

  lemma SeenNotNegative(b: Book, taker: OrderId)
    requires WF(b) && taker in b.orders
    ensures forall i :: 0 <= i < |SeenQuotes(b, taker)| ==> SeenQuotes(b, taker)[i].rem >= 0
  {
    var terms := Terms(b.orders[taker]);
    var line := Line(Bid, Visible(b.bids).levels, terms);
    forall i | 0 <= i < |line|
      ensures QuoteAt(b.orders, line[i]).rem >= 0
    {
      SeenMember(b, terms, line[i]);
    }
  }
}
