/** What a match means for the taker: how much is executed, at which prices, in how many positive fills. */
module Execution {
  import opened Types
  import opened LimitOrderBook
  import opened Matching
  import opened Priority

  // ---------------------------------------------------------------- quantities

  function SumRem(quotes: seq<Quote>): int {
    if quotes == [] then 0 else quotes[0].rem + SumRem(quotes[1..])
  }

  function SumInts(xs: seq<int>): int {
    if xs == [] then 0 else xs[0] + SumInts(xs[1..])
  }

  lemma {:induction false} SumQtyConcat(a: seq<Fill>, b: seq<Fill>)
    ensures SumQty(a + b) == SumQty(a) + SumQty(b)
  {
    if a == [] {
      assert a + b == b;
    } else {
      SumQtyConcat(a[1..], b);
      assert (a + b)[1..] == a[1..] + b;
    }
  }

  lemma {:induction false} SlicesSum(n: int, k: int)
    ensures SumInts(Slices(n, k)) == n
    ensures n > 0 ==> forall i :: 0 <= i < |Slices(n, k)| ==> 0 < Slices(n, k)[i]
    ensures k > 0 ==> forall i :: 0 <= i < |Slices(n, k)| ==> Slices(n, k)[i] <= k
    decreases n
  {
    if n > k && k > 0 {
      SlicesSum(n - k, k);
      assert Slices(n, k)[1..] == Slices(n - k, k);
    } else {
      assert Slices(n, k)[1..] == [];
    }
  }

  lemma {:induction false} SliceFillsSum(taker: OrderId, q: Quote, parts: seq<int>)
    ensures SumQty(SliceFills(taker, q, parts)) == SumInts(parts)
  {
    if parts != [] {
      SliceFillsSum(taker, q, parts[1..]);
      assert SliceFills(taker, q, parts)[1..] == SliceFills(taker, q, parts[1..]);
    }
  }

  /** The walk executes all that is wanted, or all there is. */
  lemma {:induction false} GreedySum(taker: OrderId, want: int, quotes: seq<Quote>)
    requires want >= 0 && forall i :: 0 <= i < |quotes| ==> quotes[i].rem >= 0
    ensures SumRem(quotes) >= 0
    ensures SumQty(Greedy(taker, want, quotes)) == Min(want, SumRem(quotes))
    decreases |quotes|
  {
    if quotes != [] {
      var share := Min(want, quotes[0].rem);
      GreedySum(taker, want - share, quotes[1..]);
      SlicesSum(share, quotes[0].slice);
      SliceFillsSum(taker, quotes[0], Slices(share, quotes[0].slice));
      SumQtyConcat(SliceFills(taker, quotes[0], Slices(share, quotes[0].slice)),
          Greedy(taker, want - share, quotes[1..]));
    }
  }

  /** The fill is this taker's, at the price of a quote, and positive if every quote is. */
  ghost predicate FillFrom(taker: OrderId, quotes: seq<Quote>, f: Fill) {
    && f.taker == taker
    && (exists i :: 0 <= i < |quotes| && f.maker == quotes[i].id && f.price == quotes[i].price)
    && ((forall i :: 0 <= i < |quotes| ==> quotes[i].rem > 0) ==> f.qty > 0)
  }

  lemma FillFromTail(taker: OrderId, quotes: seq<Quote>, f: Fill)
    requires quotes != [] && FillFrom(taker, quotes[1..], f)
    ensures FillFrom(taker, quotes, f)
  {
    var i :| 0 <= i < |quotes[1..]| && f.maker == quotes[1..][i].id && f.price == quotes[1..][i].price;
    assert quotes[1..][i] == quotes[i + 1];
  }

  lemma {:induction false} GreedyFills(taker: OrderId, want: int, quotes: seq<Quote>)
    requires forall i :: 0 <= i < |quotes| ==> quotes[i].rem >= 0
    ensures forall k :: 0 <= k < |Greedy(taker, want, quotes)| ==>
      FillFrom(taker, quotes, Greedy(taker, want, quotes)[k])
    decreases |quotes|
  {
    if want > 0 && quotes != [] {
      var share := Min(want, quotes[0].rem);
      var head, rest := SliceFills(taker, quotes[0], Slices(share, quotes[0].slice)),
          Greedy(taker, want - share, quotes[1..]);
      GreedyFills(taker, want - share, quotes[1..]);
      SlicesSum(share, quotes[0].slice);
      forall k | 0 <= k < |head + rest|
        ensures FillFrom(taker, quotes, (head + rest)[k])
      {
        if k >= |head| {
          FillFromTail(taker, quotes, rest[k - |head|]);
        } else {
          assert head[k].maker == quotes[0].id && head[k].price == quotes[0].price;
        }
      }
    }
  }

  // ---------------------------------------------------------------- prices

  /** The line never improves as it goes on. */
  ghost predicate Worsening(s: Side, prices: seq<Tick>) {
    forall i, j :: 0 <= i < j < |prices| ==> !Better(s, prices[j], prices[i])
  }

  function QuotePrices(quotes: seq<Quote>): seq<Tick> {
    seq(|quotes|, i requires 0 <= i < |quotes| => quotes[i].price)
  }

  function FillPrices(fills: seq<Fill>): seq<Tick> {
    seq(|fills|, i requires 0 <= i < |fills| => fills[i].price)
  }

  lemma LinePrices(s: Side, levels: map<Tick, Level>, terms: Order, orders: map<OrderId, Order>, x: OrderId)
    requires forall p :: p in levels ==> LevelOK(s, p, levels[p].queue, orders)
    requires x in Line(s, levels, terms)
    ensures x in orders && orders[x].price in levels && terms.Accepts(orders[x].price)
  {
    LineMembers(s, levels, terms, x);
    var p :| p in levels && x in levels[p].queue && terms.Accepts(p);
    assert LevelOK(s, p, levels[p].queue, orders);
  }

  /** Prices of two adjoining stretches of the line. */
  lemma WorseningConcat(s: Side, a: seq<Tick>, b: seq<Tick>)
    requires Worsening(s, a) && Worsening(s, b)
    requires forall i, j :: 0 <= i < |a| && 0 <= j < |b| ==> !Better(s, b[j], a[i])
    ensures Worsening(s, a + b)
  {
  }

  lemma {:induction false} LineWorsens(s: Side, levels: map<Tick, Level>, terms: Order, orders: map<OrderId, Order>)
    requires forall p :: p in levels ==> LevelOK(s, p, levels[p].queue, orders)
    ensures Worsening(s, QuotePrices(Quotes(orders, Line(s, levels, terms))))
    decreases |levels.Keys|
  {
    if levels != map[] && terms.Accepts(BestPrice(s, levels.Keys)) {
      var p := BestPrice(s, levels.Keys);
      var rest := levels - {p};
      assert rest.Keys == levels.Keys - {p};
      LineWorsens(s, rest, terms, orders);
      LineOfTwo(s, levels, p, Line(s, rest, terms), terms, orders);
    }
  }

  /** The best level in front of what is left of the line. */
  lemma LineOfTwo(s: Side, levels: map<Tick, Level>, p: Tick, back: seq<OrderId>, terms: Order,
      orders: map<OrderId, Order>)
    requires forall q :: q in levels ==> LevelOK(s, q, levels[q].queue, orders)
    requires p in levels && (forall q :: q in levels ==> !Better(s, q, p))
    requires back == Line(s, levels - {p}, terms) && Worsening(s, QuotePrices(Quotes(orders, back)))
    ensures Worsening(s, QuotePrices(Quotes(orders, levels[p].queue + back)))
  {
    var front := levels[p].queue;
    var a, c := QuotePrices(Quotes(orders, front)), QuotePrices(Quotes(orders, back));
    assert LevelOK(s, p, front, orders);
    forall i | 0 <= i < |a|
      ensures a[i] == p
    {
      assert front[i] in front;
    }
    forall j | 0 <= j < |c|
      ensures !Better(s, c[j], p)
    {
      assert back[j] in back;
      LinePrices(s, levels - {p}, terms, orders, back[j]);
    }
    WorseningConcat(s, a, c);
    assert QuotePrices(Quotes(orders, front + back)) == a + c;
  }

  lemma {:induction false} GreedyWorsens(s: Side, taker: OrderId, want: int, quotes: seq<Quote>)
    requires Worsening(s, QuotePrices(quotes))
    requires forall i :: 0 <= i < |quotes| ==> quotes[i].rem >= 0
    ensures Worsening(s, FillPrices(Greedy(taker, want, quotes)))
    decreases |quotes|
  {
    if want > 0 && quotes != [] {
      var share := Min(want, quotes[0].rem);
      var head, rest := SliceFills(taker, quotes[0], Slices(share, quotes[0].slice)),
          Greedy(taker, want - share, quotes[1..]);
      assert QuotePrices(quotes[1..]) == QuotePrices(quotes)[1..];
      GreedyWorsens(s, taker, want - share, quotes[1..]);
      GreedyFills(taker, want - share, quotes[1..]);
      var prices := FillPrices(head + rest);
      forall i, j | 0 <= i < j < |prices|
        ensures !Better(s, prices[j], prices[i])
      {
        if j >= |head| {
          assert FillFrom(taker, quotes[1..], rest[j - |head|]);
          var k :| 0 <= k < |quotes[1..]| && rest[j - |head|].price == quotes[1..][k].price;
          if i < |head| {
            assert QuotePrices(quotes)[k + 1] == quotes[1..][k].price && QuotePrices(quotes)[0] == quotes[0].price;
          } else {
            assert FillPrices(rest)[i - |head|] == prices[i] && FillPrices(rest)[j - |head|] == prices[j];
          }
        }
      }
    }
  }

  // ---------------------------------------------------------------- the match as the taker sees it

  lemma EligibleOK(b: Book, taker: OrderId)
    requires WF(b) && taker in b.orders
    ensures var t, qs := b.orders[taker], EligibleQuotes(b, taker);
      && (forall i :: 0 <= i < |qs| ==> qs[i].rem >= 0 && t.Accepts(qs[i].price))
      && Worsening(t.side.Opposite(), QuotePrices(qs))
  {
    var t := b.orders[taker];
    var s := t.side.Opposite();
    assert SideOK(s, b.On(s), b.orders);
    var line := Line(s, b.On(s).levels, Terms(t));
    LineWorsens(s, b.On(s).levels, Terms(t), b.orders);
    forall i | 0 <= i < |line|
      ensures line[i] in b.orders && OrderOK(b.orders[line[i]]) && t.Accepts(b.orders[line[i]].price)
    {
      assert line[i] in line;
      LinePrices(s, b.On(s).levels, Terms(t), b.orders, line[i]);
    }
  }

  ghost function Liquidity(b: Book, taker: OrderId): int
    requires taker in b.orders
  {
    SumRem(EligibleQuotes(b, taker))
  }

  lemma {:induction false} AllTaken(fills: seq<Fill>, taker: OrderId)
    requires forall i :: 0 <= i < |fills| ==> fills[i].taker == taker
    ensures FilledIn(fills, taker) == SumQty(fills)
  {
    if fills != [] {
      AllTaken(fills[1..], taker);
    }
  }

  /** match_order returns exactly what the eligible liquidity could not serve. */
  lemma MatchRemainder(h: HashOrder, b: Book, taker: OrderId)
    requires WF(b) && taker in b.orders
    requires var s := b.orders[taker].side.Opposite(); CacheOK(s, b.On(s))
    ensures taker in Match(h, b, taker).book.orders
    ensures Match(h, b, taker).book.orders[taker].Remaining()
        == Max(0, b.orders[taker].Remaining() - Liquidity(b, taker))
    ensures SumQty(Match(h, b, taker).fills) == Min(b.orders[taker].Remaining(), Liquidity(b, taker))
  {
    var want, qs := b.orders[taker].Remaining(), EligibleQuotes(b, taker);
    MatchIsGreedy(h, b, taker);
    EligibleOK(b, taker);
    GreedySum(taker, want, qs);
    GreedyFills(taker, want, qs);
    AllTaken(Match(h, b, taker).fills, taker);
    MatchWF(h, b, taker);
    MatchAccounts(h, b, taker, taker);
  }

  /** A fill with a maker of the opposite side, at that maker's price and within the taker's limit. */
  ghost predicate WithinLimit(orders: map<OrderId, Order>, t: Order, f: Fill) {
    && f.taker == t.id && f.maker in orders && orders[f.maker].side == t.side.Opposite()
    && f.price == orders[f.maker].price && t.Accepts(f.price)
  }

  lemma WithinLimitBefore(h: HashOrder, b: Book, taker: OrderId, f: Fill)
    requires WF(b) && taker in b.orders && CanMatch(b, taker) && taker in MatchOnce(h, b, taker).orders
    requires WithinLimit(MatchOnce(h, b, taker).orders, MatchOnce(h, b, taker).orders[taker], f)
    ensures WithinLimit(b.orders, b.orders[taker], f)
  {
    hide WF, CanMatch, MatchOnce, FillQty;
    MatchOnceOrders(h, b, taker);
  }

  /** In every well-formed book, whatever the caches: each fill is at its maker's price, and never beyond
      the taker's limit. */
  lemma {:induction false} MatchWithinLimit(h: HashOrder, b: Book, taker: OrderId)
    requires WF(b) && taker in b.orders
    ensures var fills := Match(h, b, taker).fills;
      forall k :: 0 <= k < |fills| ==> WithinLimit(b.orders, b.orders[taker], fills[k])
    decreases b.orders[taker].Remaining() + |b.orders|
  {
    if CanMatch(b, taker) {
      var b' := MatchOnce(h, b, taker);
      MatchUnfolds(h, b, taker);
      MatchOnceWF(h, b, taker);
      MakerRests(b, taker);
      MatchWithinLimit(h, b', taker);
      var fills, rest := Match(h, b, taker).fills, Match(h, b', taker).fills;
      assert WithinLimit(b.orders, b.orders[taker], fills[0]);
      hide WF, CanMatch, Match, MatchOnce, WithinLimit;
      forall k | 0 <= k < |fills|
        ensures WithinLimit(b.orders, b.orders[taker], fills[k])
      {
        if k > 0 {
          assert fills[k] == rest[k - 1];
          WithinLimitBefore(h, b, taker, fills[k]);
        }
      }
    }
  }

  /** Where the cache is right, fills get no better as the match goes on; they are strictly positive when
      no maker is spent. */
  lemma MatchPrices(h: HashOrder, b: Book, taker: OrderId)
    requires WF(b) && taker in b.orders
    requires var s := b.orders[taker].side.Opposite(); CacheOK(s, b.On(s))
    ensures var t, fills := b.orders[taker], Match(h, b, taker).fills;
      && Worsening(t.side.Opposite(), FillPrices(fills))
      && (forall k :: 0 <= k < |fills| ==> fills[k].taker == taker && t.Accepts(fills[k].price))
      && ((forall x :: x in b.orders && x != taker ==> b.orders[x].Remaining() > 0) ==>
           forall k :: 0 <= k < |fills| ==> fills[k].qty > 0)
  {
    var t, qs, fills := b.orders[taker], EligibleQuotes(b, taker), Match(h, b, taker).fills;
    MatchIsGreedy(h, b, taker);
    EligibleOK(b, taker);
    GreedyFills(taker, t.Remaining(), qs);
    GreedyWorsens(t.side.Opposite(), taker, t.Remaining(), qs);
    forall k | 0 <= k < |fills|
      ensures t.Accepts(fills[k].price)
    {
      assert FillFrom(taker, qs, fills[k]);
      var i :| 0 <= i < |qs| && fills[k].maker == qs[i].id && fills[k].price == qs[i].price;
    }
    if forall x :: x in b.orders && x != taker ==> b.orders[x].Remaining() > 0 {
      QuotesPositive(b, taker);
    }
  }

  lemma QuotesPositive(b: Book, taker: OrderId)
    requires WF(b) && taker in b.orders
    requires forall x :: x in b.orders && x != taker ==> b.orders[x].Remaining() > 0
    ensures forall i :: 0 <= i < |EligibleQuotes(b, taker)| ==> EligibleQuotes(b, taker)[i].rem > 0
  {
    var t := b.orders[taker];
    var s := t.side.Opposite();
    assert SideOK(s, b.On(s), b.orders);
    var line := Line(s, b.On(s).levels, Terms(t));
    forall i | 0 <= i < |line|
      ensures line[i] in b.orders && b.orders[line[i]].Remaining() > 0
    {
      LineIsOpposite(s, b.On(s), Terms(t), b.orders, line[i]);
    }
  }

  // ---------------------------------------------------------------- fills of nothing

  predicate AllPositive(fills: seq<Fill>) {
    forall k :: 0 <= k < |fills| ==> fills[k].qty > 0
  }

  /** A spent order stands in the walk before want is satisfied. */
  ghost predicate MeetsSpent(want: int, quotes: seq<Quote>) {
    exists k :: 0 <= k < |quotes| && quotes[k].rem == 0 && SumRem(quotes[..k]) < want
  }

  lemma MeetsSpentLater(want: int, quotes: seq<Quote>)
    requires quotes != [] && quotes[0].rem != 0
    ensures MeetsSpent(want, quotes) <==> MeetsSpent(want - quotes[0].rem, quotes[1..])
  {
    var rest := quotes[1..];
    forall k | 0 <= k < |rest|
      ensures SumRem(quotes[..k + 1]) == quotes[0].rem + SumRem(rest[..k])
    {
      assert quotes[..k + 1][1..] == rest[..k];
    }
    if MeetsSpent(want, quotes) {
      var k :| 0 <= k < |quotes| && quotes[k].rem == 0 && SumRem(quotes[..k]) < want;
      assert rest[k - 1].rem == 0 && SumRem(rest[..k - 1]) < want - quotes[0].rem;
    }
    if MeetsSpent(want - quotes[0].rem, rest) {
      var k :| 0 <= k < |rest| && rest[k].rem == 0 && SumRem(rest[..k]) < want - quotes[0].rem;
      assert quotes[k + 1].rem == 0 && SumRem(quotes[..k + 1]) < want;
    }
  }

  lemma NothingMeetsSpent(want: int, quotes: seq<Quote>)
    requires want <= 0 && forall i :: 0 <= i < |quotes| ==> quotes[i].rem >= 0
    ensures !MeetsSpent(want, quotes)
  {
    forall k | 0 <= k < |quotes|
      ensures SumRem(quotes[..k]) >= 0
    {
      GreedySum(0, 0, quotes[..k]);
    }
  }

  lemma SharePositive(taker: OrderId, q: Quote, share: int)
    requires share >= 0
    ensures AllPositive(SliceFills(taker, q, Slices(share, q.slice))) <==> share > 0
  {
    SlicesSum(share, q.slice);
    var parts := Slices(share, q.slice);
    if share == 0 {
      SlicesOfNothing(q.slice);
      assert SliceFills(taker, q, parts)[0].qty == 0;
    }
  }

  lemma SlicesOfNothing(k: int)
    ensures Slices(0, k) == [0]
  {
  }

  lemma PositiveConcat(a: seq<Fill>, b: seq<Fill>)
    ensures AllPositive(a + b) <==> AllPositive(a) && AllPositive(b)
  {
    if AllPositive(a + b) {
      assert forall k :: 0 <= k < |a| ==> a[k] == (a + b)[k];
      assert forall k :: 0 <= k < |b| ==> b[k] == (a + b)[|a| + k];
    }
  }

  lemma {:induction false} GreedyPositiveIff(taker: OrderId, want: int, quotes: seq<Quote>)
    requires forall i :: 0 <= i < |quotes| ==> quotes[i].rem >= 0
    ensures AllPositive(Greedy(taker, want, quotes)) <==> !MeetsSpent(want, quotes)
    decreases |quotes|
  {
    if want <= 0 {
      NothingMeetsSpent(want, quotes);
    } else if quotes != [] {
      var q := quotes[0];
      var share := Min(want, q.rem);
      SharePositive(taker, q, share);
      PositiveConcat(SliceFills(taker, q, Slices(share, q.slice)), Greedy(taker, want - share, quotes[1..]));
      if q.rem == 0 {
        assert SumRem(quotes[..0]) == 0;
      } else {
        MeetsSpentLater(want, quotes);
        GreedyPositiveIff(taker, want - share, quotes[1..]);
        if share < q.rem {
          NothingMeetsSpent(want - q.rem, quotes[1..]);
        }
      }
    }
  }

  /** Every fill is positive exactly if no spent order stands in the line before the taker is
      served. */
  lemma MatchPositiveIff(h: HashOrder, b: Book, taker: OrderId)
    requires WF(b) && taker in b.orders
    requires var s := b.orders[taker].side.Opposite(); CacheOK(s, b.On(s))
    ensures AllPositive(Match(h, b, taker).fills)
        <==> !MeetsSpent(b.orders[taker].Remaining(), EligibleQuotes(b, taker))
  {
    MatchIsGreedy(h, b, taker);
    EligibleOK(b, taker);
    hide WF, CacheOK, Match, EligibleQuotes, AllPositive, MeetsSpent;
    GreedyPositiveIff(taker, b.orders[taker].Remaining(), EligibleQuotes(b, taker));
  }
}
