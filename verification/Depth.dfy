/** The depth snapshot: the best N levels of a side, in order, and the message made of both sides. */
module Depth {
  import opened Types
  import opened Queues
  import opened LimitOrderBook
  import opened Priority
  import opened Totals

  const MAX_DEPTH_LEVELS: nat := 10

  datatype DepthLevel = DepthLevel(price: Tick, qty: int)

  /** The n best levels of a side, best first. */
  ghost function TopLevels(s: Side, levels: map<Tick, Level>, n: nat): seq<DepthLevel>
    decreases |levels.Keys|
  {
    if n == 0 || levels == map[] then [] else
    assert levels.Keys != {};
    var p := BestPrice(s, levels.Keys);
    assert (levels - {p}).Keys == levels.Keys - {p};
    [DepthLevel(p, levels[p].total)] + TopLevels(s, levels - {p}, n - 1)
  }

  datatype BookUpdate = BookUpdate(
    bestBid: Tick,
    bestAsk: Tick,
    numBids: nat,
    numAsks: nat,
    bidPrices: seq<Tick>,
    bidQtys: seq<int>,
    askPrices: seq<Tick>,
    askQtys: seq<int>)

  function PaddedPrices(d: seq<DepthLevel>, n: nat): seq<Tick> {
    seq(n, i requires 0 <= i < n => if i < |d| then d[i].price else 0)
  }

  function PaddedQtys(d: seq<DepthLevel>, n: nat): seq<int> {
    seq(n, i requires 0 <= i < n => if i < |d| then d[i].qty else 0)
  }

  function Message(bestBid: Tick, bestAsk: Tick, bids: seq<DepthLevel>, asks: seq<DepthLevel>): BookUpdate {
    BookUpdate(bestBid, bestAsk, |bids|, |asks|,
      PaddedPrices(bids, MAX_DEPTH_LEVELS), PaddedQtys(bids, MAX_DEPTH_LEVELS),
      PaddedPrices(asks, MAX_DEPTH_LEVELS), PaddedQtys(asks, MAX_DEPTH_LEVELS))
  }

  ghost function Snapshot(b: Book): BookUpdate {
    Message(b.bids.best, b.asks.best,
      TopLevels(Bid, b.bids.levels, MAX_DEPTH_LEVELS), TopLevels(Ask, b.asks.levels, MAX_DEPTH_LEVELS))
  }

  // ---------------------------------------------------------------- what the top levels are

  ghost predicate StrictlySorted(s: Side, d: seq<DepthLevel>) {
    forall i, j :: 0 <= i < j < |d| ==> Better(s, d[i].price, d[j].price)
  }

  ghost predicate FromLevels(levels: map<Tick, Level>, d: seq<DepthLevel>) {
    forall i :: 0 <= i < |d| ==> d[i].price in levels && d[i].qty == levels[d[i].price].total
  }

  ghost predicate Shows(d: seq<DepthLevel>, p: Tick) {
    exists i :: 0 <= i < |d| && d[i].price == p
  }

  /** The first step of every proof below: the best level, then the rest. */
  lemma TopUnfolds(s: Side, levels: map<Tick, Level>, n: nat, n': nat)
    requires n == n' + 1 && levels != map[]
    ensures levels.Keys != {}
    ensures var p := BestPrice(s, levels.Keys);
      && p in levels
      && TopLevels(s, levels, n) == [DepthLevel(p, levels[p].total)] + TopLevels(s, levels - {p}, n')
      && (levels - {p}).Keys == levels.Keys - {p}
      && |(levels - {p}).Keys| == |levels.Keys| - 1
      && (forall q :: q in levels && q != p ==> Better(s, p, q))
  {
    var p := BestPrice(s, levels.Keys);
    assert (levels - {p}).Keys == levels.Keys - {p};
    forall q | q in levels && q != p
      ensures Better(s, p, q)
    {
      assert q in levels.Keys;
    }
  }

  lemma {:induction false} TopSize(s: Side, levels: map<Tick, Level>, n: nat)
    ensures |TopLevels(s, levels, n)| == Min(n, |levels.Keys|)
    decreases |levels.Keys|
  {
    if n > 0 && levels != map[] {
      TopUnfolds(s, levels, n, n - 1);
      TopSize(s, levels - {BestPrice(s, levels.Keys)}, n - 1);
    }
  }

  lemma {:induction false} TopIsSorted(s: Side, levels: map<Tick, Level>, n: nat)
    ensures FromLevels(levels, TopLevels(s, levels, n))
    ensures StrictlySorted(s, TopLevels(s, levels, n))
    decreases |levels.Keys|
  {
    if n > 0 && levels != map[] {
      var n' := n - 1;
      TopUnfolds(s, levels, n, n');
      var p := BestPrice(s, levels.Keys);
      TopIsSorted(s, levels - {p}, n');
      SortedCons(s, levels, p, TopLevels(s, levels - {p}, n'));
    }
  }

  lemma SortedCons(s: Side, levels: map<Tick, Level>, p: Tick, tail: seq<DepthLevel>)
    requires p in levels && (forall q :: q in levels && q != p ==> Better(s, p, q))
    requires FromLevels(levels - {p}, tail) && StrictlySorted(s, tail)
    ensures FromLevels(levels, [DepthLevel(p, levels[p].total)] + tail)
    ensures StrictlySorted(s, [DepthLevel(p, levels[p].total)] + tail)
  {
  }

  lemma {:induction false} HiddenIsWorse(s: Side, levels: map<Tick, Level>, n: nat, q: Tick, i: nat)
    requires q in levels && i < |TopLevels(s, levels, n)| && !Shows(TopLevels(s, levels, n), q)
    ensures Better(s, TopLevels(s, levels, n)[i].price, q)
    decreases |levels.Keys|
  {
    TopUnfolds(s, levels, n, n - 1);
    var p := BestPrice(s, levels.Keys);
    var d, tail := TopLevels(s, levels, n), TopLevels(s, levels - {p}, n - 1);
    assert d[0].price == p;
    if i > 0 {
      assert forall k :: 0 <= k < |tail| ==> tail[k] == d[k + 1];
      HiddenIsWorse(s, levels - {p}, n - 1, q, i - 1);
    }
  }

  /** min(n, number of levels) entries, strictly sorted, each a level with its total, and any level
      that is not shown is worse than every one that is. */
  lemma TopLevelsAreTop(s: Side, levels: map<Tick, Level>, n: nat)
    ensures var d := TopLevels(s, levels, n);
      && |d| == Min(n, |levels.Keys|)
      && FromLevels(levels, d)
      && StrictlySorted(s, d)
      && (forall q, i :: q in levels && 0 <= i < |d| && !Shows(d, q) ==> Better(s, d[i].price, q))
  {
    TopSize(s, levels, n);
    TopIsSorted(s, levels, n);
    forall q, i | q in levels && 0 <= i < |TopLevels(s, levels, n)| && !Shows(TopLevels(s, levels, n), q)
      ensures Better(s, TopLevels(s, levels, n)[i].price, q)
    {
      HiddenIsWorse(s, levels, n, q, i);
    }
  }

  lemma SortedFront(s: Side, levels: map<Tick, Level>, d: seq<DepthLevel>)
    requires StrictlySorted(s, d) && FromLevels(levels, d) && levels != map[]
    requires forall p :: p in levels ==> Shows(d, p)
    ensures levels.Keys != {} && d != []
    ensures var p := BestPrice(s, levels.Keys);
      && d[0] == DepthLevel(p, levels[p].total)
      && FromLevels(levels - {p}, d[1..])
      && (forall q :: q in levels - {p} ==> Shows(d[1..], q))
  {
    TopUnfolds(s, levels, 1, 0);
    var p, tail := BestPrice(s, levels.Keys), d[1..];
    assert Shows(d, p);
    var i :| 0 <= i < |d| && d[i].price == p;
    assert d[0].price == p;
    forall q | q in levels - {p}
      ensures Shows(tail, q)
    {
      assert Shows(d, q);
      var k :| 0 <= k < |d| && d[k].price == q;
      assert tail[k - 1].price == q;
    }
    forall j | 0 <= j < |tail|
      ensures tail[j].price in levels - {p}
    {
      assert tail[j] == d[j + 1] && Better(s, d[0].price, d[j + 1].price);
    }
  }

  function Cut(d: seq<DepthLevel>, n: nat): seq<DepthLevel> {
    if |d| > n then d[..n] else d
  }

  lemma CutTail(d: seq<DepthLevel>, n: nat, n': nat)
    requires d != [] && n == n' + 1
    ensures Cut(d, n) == [d[0]] + Cut(d[1..], n')
  {
    assert d == [d[0]] + d[1..];
  }

  /** Sorting all levels, whatever order they were collected in, and cutting at n yields the top n. */
  lemma {:induction false} SortedIsTop(s: Side, levels: map<Tick, Level>, d: seq<DepthLevel>, n: nat)
    requires StrictlySorted(s, d) && FromLevels(levels, d) && |d| == |levels.Keys|
    requires forall p :: p in levels ==> Shows(d, p)
    ensures TopLevels(s, levels, n) == Cut(d, n)
    decreases |levels.Keys|
  {
    if levels == map[] {
      assert levels.Keys == {};
    } else if n > 0 {
      var n' := n - 1;
      TopUnfolds(s, levels, n, n');
      SortedFront(s, levels, d);
      SortedIsTop(s, levels - {BestPrice(s, levels.Keys)}, d[1..], n');
      CutTail(d, n, n');
    }
  }

  // ---------------------------------------------------------------- sorting the collected levels

  ghost predicate DistinctPrices(d: seq<DepthLevel>) {
    forall i, j :: 0 <= i < j < |d| ==> d[i].price != d[j].price
  }

  /** x put in its place among sorted levels. */
  function Inserted(s: Side, d: seq<DepthLevel>, x: DepthLevel): (r: seq<DepthLevel>)
    ensures |r| == |d| + 1
    ensures forall y :: y in r <==> y == x || y in d
  {
    if d == [] || Better(s, x.price, d[0].price) then [x] + d
    else
      var r := Inserted(s, d[1..], x);
      assert forall y :: y in d <==> y == d[0] || y in d[1..];
      [d[0]] + r
  }

  lemma {:induction false} InsertedSorted(s: Side, d: seq<DepthLevel>, x: DepthLevel)
    requires StrictlySorted(s, d) && forall y :: y in d ==> y.price != x.price
    ensures StrictlySorted(s, Inserted(s, d, x))
  {
    if d != [] && !Better(s, x.price, d[0].price) {
      var r := Inserted(s, d[1..], x);
      assert d[0] in d;
      assert forall y :: y in d[1..] ==> y in d;
      InsertedSorted(s, d[1..], x);
      forall j | 0 <= j < |r|
        ensures Better(s, d[0].price, r[j].price)
      {
        assert r[j] in r;
        if r[j] != x {
          var k :| 0 <= k < |d[1..]| && d[1..][k] == r[j];
          assert d[k + 1] == r[j];
        }
      }
    }
  }

  /** The levels in strict order of priority. */
  function SortedLevels(s: Side, d: seq<DepthLevel>): (r: seq<DepthLevel>)
    ensures |r| == |d|
    ensures forall y :: y in r <==> y in d
  {
    if d == [] then [] else
    assert forall y :: y in d <==> y == d[0] || y in d[1..];
    Inserted(s, SortedLevels(s, d[1..]), d[0])
  }

  lemma {:induction false} SortedLevelsSorted(s: Side, d: seq<DepthLevel>)
    requires DistinctPrices(d)
    ensures StrictlySorted(s, SortedLevels(s, d))
  {
    if d != [] {
      SortedLevelsSorted(s, d[1..]);
      forall y | y in SortedLevels(s, d[1..])
        ensures y.price != d[0].price
      {
        var k :| 0 <= k < |d[1..]| && d[1..][k] == y;
        assert d[k + 1] == y;
      }
      InsertedSorted(s, SortedLevels(s, d[1..]), d[0]);
    }
  }

  /** The levels met when visiting these prices. */
  function Collected(levels: map<Tick, Level>, keys: seq<Tick>): seq<DepthLevel> {
    seq(|keys|, i requires 0 <= i < |keys| => DepthLevel(keys[i], LevelTotal(levels, keys[i])))
  }

  function LevelTotal(levels: map<Tick, Level>, p: Tick): int {
    if p in levels then levels[p].total else 0
  }

  /** The snapshot does not depend on the order in which the map hands out its levels. */
  lemma CollectSortCut(s: Side, levels: map<Tick, Level>, keys: seq<Tick>, n: nat)
    requires IsOrder(keys, levels.Keys)
    ensures Cut(SortedLevels(s, Collected(levels, keys)), n) == TopLevels(s, levels, n)
  {
    var d := Collected(levels, keys);
    var r := SortedLevels(s, d);
    SortedLevelsSorted(s, d);
    CardinalityOf(keys, levels.Keys);
    forall i | 0 <= i < |r|
      ensures r[i].price in levels && r[i].qty == levels[r[i].price].total
    {
      assert r[i] in r;
      var k :| 0 <= k < |d| && d[k] == r[i];
      assert keys[k] in levels.Keys;
    }
    forall p | p in levels
      ensures Shows(r, p)
    {
      assert p in levels.Keys;
      var k :| 0 <= k < |keys| && keys[k] == p;
      assert d[k] in r;
      var i :| 0 <= i < |r| && r[i] == d[k];
      assert r[i].price == p;
    }
    SortedIsTop(s, levels, r, n);
  }

  // ---------------------------------------------------------------- the message

  function CountOn(u: BookUpdate, s: Side): nat {
    if s.Bid? then u.numBids else u.numAsks
  }

  function BestOn(u: BookUpdate, s: Side): Tick {
    if s.Bid? then u.bestBid else u.bestAsk
  }

  function PricesOn(u: BookUpdate, s: Side): seq<Tick> {
    if s.Bid? then u.bidPrices else u.askPrices
  }

  function QtysOn(u: BookUpdate, s: Side): seq<int> {
    if s.Bid? then u.bidQtys else u.askQtys
  }

  /** One side of a message, with this advertised best price, this count and these arrays, shows the best
      levels of l, best first, each with its total, at most ten, and zeros behind them; a level that is
      not shown is worse than every one that is. */
  ghost predicate Lists(s: Side, l: Ladder, best: Tick, n: nat, ps: seq<Tick>, qs: seq<int>) {
    && best == l.best
    && n == Min(MAX_DEPTH_LEVELS, |l.levels.Keys|) && |ps| == |qs| == MAX_DEPTH_LEVELS
    && (forall i :: 0 <= i < n ==> ps[i] in l.levels && qs[i] == l.levels[ps[i]].total)
    && (forall i, j :: 0 <= i < j < n ==> Better(s, ps[i], ps[j]))
    && (forall i :: n <= i < MAX_DEPTH_LEVELS ==> ps[i] == 0 && qs[i] == 0)
    && (forall q, i :: q in l.levels && q !in ps[..n] && 0 <= i < n ==> Better(s, ps[i], q))
  }

  ghost predicate Shown(u: BookUpdate, s: Side, l: Ladder) {
    Lists(s, l, BestOn(u, s), CountOn(u, s), PricesOn(u, s), QtysOn(u, s))
  }

  /** The message of every book lists its bids and its asks. */
  lemma SnapshotLists(b: Book)
    ensures var u := Snapshot(b);
      && Lists(Bid, b.bids, u.bestBid, u.numBids, u.bidPrices, u.bidQtys)
      && Lists(Ask, b.asks, u.bestAsk, u.numAsks, u.askPrices, u.askQtys)
  {
    SnapshotShows(b, Bid);
    SnapshotShows(b, Ask);
    hide Lists, Snapshot;
  }

  lemma SnapshotShows(b: Book, s: Side)
    ensures Shown(Snapshot(b), s, b.On(s))
  {
    var l := b.On(s);
    var d, u := TopLevels(s, l.levels, MAX_DEPTH_LEVELS), Snapshot(b);
    TopLevelsAreTop(s, l.levels, MAX_DEPTH_LEVELS);
    var n, ps := CountOn(u, s), PricesOn(u, s);
    assert n == |d| && forall i :: 0 <= i < n ==> ps[i] == d[i].price && QtysOn(u, s)[i] == d[i].qty;
    hide TopLevels;
    forall q, i | q in l.levels && q !in ps[..n] && 0 <= i < n
      ensures Better(s, ps[i], q)
    {
      ShownPrice(d, ps[..n], q);
    }
  }

  lemma ShownPrice(d: seq<DepthLevel>, ps: seq<Tick>, q: Tick)
    requires |d| == |ps| && forall i :: 0 <= i < |d| ==> ps[i] == d[i].price
    ensures Shows(d, q) ==> q in ps
  {
    if Shows(d, q) {
      var i :| 0 <= i < |d| && d[i].price == q;
      assert ps[i] == q;
    }
  }

  /** With a right cache the first price shown is the advertised best price, and none is shown exactly
      if none is advertised. Where totals are exact, each quantity is what rests at that price. */
  lemma SnapshotReadsTheBook(b: Book, s: Side)
    requires CacheOK(s, b.On(s))
    ensures var u := Snapshot(b);
      && (CountOn(u, s) == 0 <==> BestOn(u, s) == INVALID_PRICE)
      && |PricesOn(u, s)| == |QtysOn(u, s)| == MAX_DEPTH_LEVELS >= CountOn(u, s)
      && (CountOn(u, s) > 0 ==> PricesOn(u, s)[0] == BestOn(u, s))
      && (Exact(b) ==> forall i :: 0 <= i < CountOn(u, s) ==>
           && PricesOn(u, s)[i] in b.On(s).levels
           && QtysOn(u, s)[i] == QueueSum(b.orders, b.On(s).levels[PricesOn(u, s)[i]].queue))
  {
    var l, u := b.On(s), Snapshot(b);
    SnapshotShows(b, s);
    if l.levels != map[] {
      CachedBest(s, l);
      assert l.best in l.levels.Keys;
      hide Snapshot;
      FirstShown(u, s, l);
    }
  }

  lemma FirstShown(u: BookUpdate, s: Side, l: Ladder)
    requires Shown(u, s, l) && CacheOK(s, l) && l.levels != map[]
    ensures CountOn(u, s) > 0 && PricesOn(u, s)[0] == l.best
  {
    assert l.levels.Keys != {};
    var n, ps := CountOn(u, s), PricesOn(u, s);
    assert ps[0] in l.levels && !Better(s, ps[0], l.best);
    assert l.best in ps[..n];
  }
}
