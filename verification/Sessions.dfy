/** The book together with what the engine has emitted and counted, and what each handler of
    matching_engine.cpp makes of it. */
module Sessions {
  import opened Types
  import opened LimitOrderBook
  import opened BookInvariants
  import opened Matching
  import opened Execution
  import opened Settlement
  import opened Engine

  /** What the fill callback is handed: the trade, and what it costs each party. The maker's fee is
      negative, for it is earned. */
  datatype FillReport = FillReport(fill: Fill, makerFee: int, takerFee: int)

  function ReportOf(fees: Fees, f: Fill): FillReport {
    FillReport(f, -fees.Rebate(f.price, f.qty), fees.TakerFee(f.price, f.qty))
  }

  function Reports(fees: Fees, fills: seq<Fill>): seq<FillReport> {
    if fills == [] then [] else [ReportOf(fees, fills[0])] + Reports(fees, fills[1..])
  }

  /** Report r tells of fill f: who rested and who came in, at what price and for how much, what the maker
      earns and what the taker pays. */
  ghost predicate Tells(fees: Fees, f: Fill, r: FillReport) {
    && r.fill.maker == f.maker && r.fill.taker == f.taker && r.fill.price == f.price && r.fill.qty == f.qty
    && r.makerFee == -(f.price * f.qty * fees.makerBps)
    && r.takerFee == f.price * f.qty * fees.takerBps
  }

  /** One report for each fill, in order. */
  lemma {:induction false} ReportsTell(fees: Fees, fills: seq<Fill>)
    ensures |Reports(fees, fills)| == |fills|
    ensures forall k :: 0 <= k < |fills| ==> Tells(fees, fills[k], Reports(fees, fills)[k])
  {
    if fills != [] {
      var rest := Reports(fees, fills[1..]);
      ReportsTell(fees, fills[1..]);
      assert Tells(fees, fills[0], ReportOf(fees, fills[0]));
      hide Tells, ReportOf;
      forall k | 0 <= k < |fills|
        ensures Tells(fees, fills[k], Reports(fees, fills)[k])
      {
        if k > 0 {
          assert fills[k] == fills[1..][k - 1] && Reports(fees, fills)[k] == rest[k - 1];
        }
      }
    }
  }

  lemma {:induction false} ReportsAppend(fees: Fees, a: seq<Fill>, b: seq<Fill>)
    ensures Reports(fees, a + b) == Reports(fees, a) + Reports(fees, b)
  {
    if a == [] {
      assert a + b == b;
    } else {
      assert (a + b)[1..] == a[1..] + b;
      ReportsAppend(fees, a[1..], b);
    }
  }

  datatype Session = Session(book: Book, reports: seq<FillReport>, counters: Counters)

  ghost predicate Same(n: Session, n': Session) {
    n == n'
  }

  /** The id map sends id to slot p. */
  predicate At(index: map<OrderId, int>, id: OrderId, p: int) {
    id in index && index[id] == p
  }

  function OrdersFilled(b: Book, m: Order, t: Order, qty: int): Book {
    b.(orders := b.orders[m.id := Filled(m, qty)][t.id := Filled(t, qty)])
  }

  function BothFilled(b: Book, m: Order, t: Order, qty: int): Book {
    var b0 := OrdersFilled(b, m, t, qty);
    var b1 := b0.With(m.side, Reduced(b0.On(m.side), m.price, qty));
    b1.With(t.side, Reduced(b1.On(t.side), t.price, qty))
  }

  /** The session after execute_fill. */
  function Executed(n: Session, fees: Fees, m: Order, t: Order, qty: int): Session {
    var f := Fill(m.id, t.id, m.price, qty);
    Session(BothFilled(n.book, m, t, qty), n.reports + [ReportOf(fees, f)], Charge(n.counters, fees, f))
  }

  /** m and t are the maker and the taker of the next turn. */
  ghost predicate Turn(b: Book, m: Order, t: Order) {
    && WF(b)
    && t.id in b.orders && b.orders[t.id] == t && CanMatch(b, t.id)
    && m.id in b.orders && b.orders[m.id] == m && m.id == MakerOf(b, t.id)
  }

  /** The session after one whole turn for taker id. */
  ghost function Stepped(h: HashOrder, fees: Fees, n: Session, id: OrderId): Session {
    if WF(n.book) && id in n.book.orders && CanMatch(n.book, id)
    then
      var f := FillOf(n.book, id);
      Session(MatchOnce(h, n.book, id), n.reports + [ReportOf(fees, f)], Charge(n.counters, fees, f))
    else n
  }

  /** The session after a maker, if filled, is retired. */
  ghost function Retired(h: HashOrder, n: Session, m: Order): Session {
    n.(book := if m.IsFilled() then Cancel(h, n.book, m.id) else n.book)
  }

  /** Between the trade of a turn and the retirement of its maker, who is now m'. */
  ghost predicate Midway(h: HashOrder, fees: Fees, n: Session, n1: Session, t: Order, m': Order) {
    && WF(n1.book) && OrderOK(m') && m'.id in n1.book.orders && n1.book.orders[m'.id] == m'
    && Stepped(h, fees, n, t.id) == Retired(h, n1, m')
  }

  lemma TurnBook(h: HashOrder, fees: Fees, n: Session, m: Order, t: Order, qty: int)
    requires Turn(n.book, m, t) && qty == Min(t.Remaining(), m.Available())
    ensures var n1 := Executed(n, fees, m, t, qty);
      && Midway(h, fees, n, n1, t, Filled(m, qty))
      && m.id in n1.book.orders && n1.book.orders[m.id] == Filled(m, qty)
  {
    MakerRests(n.book, t.id);
    TradedOK(n.book, t.id);
    TradedIs(n.book, m, t, qty);
    TradeOrders(n.book, m.id, t.id, qty);
  }

  lemma TradedIs(b: Book, m: Order, t: Order, qty: int)
    requires Turn(b, m, t) && qty == Min(t.Remaining(), m.Available())
    ensures FillQty(b, t.id) == qty && CanTrade(b, m.id, t.id, qty)
    ensures Traded(b, t.id) == BothFilled(b, m, t, qty)
  {
    MakerRests(b, t.id);
    TradedOK(b, t.id);
  }

  // ---------------------------------------------------------------- the whole loop

  predicate GoesOn(b: Book, id: OrderId) {
    id in b.orders && CanMatch(b, id)
  }

  /** The maker that the taker faces next. */
  ghost function Faced(b: Book, id: OrderId): OrderId {
    if GoesOn(b, id) then MakerOf(b, id) else id
  }

  lemma MakerIsOther(b: Book, id: OrderId)
    requires WF(b) && GoesOn(b, id)
    ensures Faced(b, id) != id
  {
    MakerRests(b, id);
  }

  /** The session after match_order for taker id. */
  ghost function Matched(h: HashOrder, fees: Fees, n: Session, id: OrderId): Session {
    if WF(n.book) && id in n.book.orders then
      var r := Match(h, n.book, id);
      Session(r.book, n.reports + Reports(fees, r.fills), ChargeAll(n.counters, fees, r.fills))
    else n
  }

  /** What bounds the loop: quantity still wanted, and resting orders. */
  ghost function Todo(b: Book, id: OrderId): int {
    Rem(b, id) + |b.orders|
  }

  lemma MatchedStep(h: HashOrder, fees: Fees, n: Session, id: OrderId)
    requires WF(n.book) && GoesOn(n.book, id)
    ensures var n1 := Stepped(h, fees, n, id);
      && WF(n1.book) && id in n1.book.orders
      && Matched(h, fees, n1, id) == Matched(h, fees, n, id)
      && 0 <= Todo(n1.book, id) < Todo(n.book, id)
  {
    hide WF, CanMatch, MatchOnce, FillOf;
    MatchOnceWF(h, n.book, id);
    MatchUnfolds(h, n.book, id);
    var f, rest := FillOf(n.book, id), Match(h, MatchOnce(h, n.book, id), id).fills;
    assert ([f] + rest)[1..] == rest;
    var first, others := [ReportOf(fees, f)], Reports(fees, rest);
    assert n.reports + first + others == n.reports + (first + others);
    ChargeFirst(n.counters, fees, f, rest);
  }

  lemma ChargeFirst(c: Counters, fees: Fees, f: Fill, rest: seq<Fill>)
    ensures ChargeAll(c, fees, [f] + rest) == ChargeAll(Charge(c, fees, f), fees, rest)
  {
    assert ([f] + rest)[1..] == rest;
  }

  lemma MatchedDone(h: HashOrder, fees: Fees, n: Session, id: OrderId)
    requires WF(n.book) && id in n.book.orders && !GoesOn(n.book, id)
    ensures Matched(h, fees, n, id) == n
  {
    assert n.reports + [] == n.reports;
  }

  // ---------------------------------------------------------------- the handlers

  ghost predicate CanEnter(b: Book, o: Order) {
    WF(b) && Admits(b, o.id) && OrderOK(o)
  }

  function PlacedIn(n: Session, o: Order): Session {
    n.(book := Placed(n.book, o))
  }

  function CancelledIn(h: HashOrder, n: Session, id: OrderId): Session {
    n.(book := Cancel(h, n.book, id))
  }

  /** The session after order o is entered, matched, and kept or taken out; unchanged if o is refused. */
  ghost function Settled(h: HashOrder, fees: Fees, n: Session, o: Order): Session {
    if CanEnter(n.book, o) then
      var r := Settle(h, n.book, o);
      Session(r.book, n.reports + Reports(fees, r.fills), ChargeAll(n.counters, fees, r.fills))
    else n
  }

  lemma PlacedWF(b: Book, o: Order)
    requires CanEnter(b, o)
    ensures WF(Placed(b, o)) && o.id in Placed(b, o).orders
  {
    InsertWF(b, o, ShownQty(o));
  }

  lemma BestOpposite(b: Book, o: Order)
    ensures Placed(b, o).On(o.side.Opposite()) == b.On(o.side.Opposite())
  {
  }

  /** A market order is entered as a limit order and only then marked. */
  lemma MarketPlaced(b: Book, o: Order)
    requires o == Incoming(o.id, o.side, Market, o.price, o.qty, o.display, o.ts)
    ensures Admits(b, o.id) ==>
      var b1 := AddOrder(b, o.id, o.side, MarketPrice(o.side), o.qty, o.ts);
      b1.(orders := b1.orders[o.id := o]) == Placed(b, o)
    ensures !Admits(b, o.id) ==> AddOrder(b, o.id, o.side, MarketPrice(o.side), o.qty, o.ts) == b
  {
  }

  lemma SettledIs(h: HashOrder, fees: Fees, n: Session, o: Order, n1: Session)
    requires CanEnter(n.book, o) && Same(n1, Matched(h, fees, PlacedIn(n, o), o.id))
    ensures o.id in n1.book.orders && WF(n1.book)
    ensures var left := if o.kind.Market? then Rem(n1.book, o.id) > 0 else Rem(n1.book, o.id) <= 0;
            Settled(h, fees, n, o) == if left then CancelledIn(h, n1, o.id) else n1
  {
    TakerSettled(h, n.book, o);
    hide WF, OrderOK, Admits, Insert, Remove, Placed, ShownQty, CanMatch;
    var r := Match(h, Placed(n.book, o), o.id);
    assert Rem(r.book, o.id) == r.book.orders[o.id].Remaining();
  }

  /** Nothing to match. */
  lemma SettledRests(h: HashOrder, fees: Fees, n: Session, o: Order)
    requires CanEnter(n.book, o) && o.Remaining() > 0 && !o.kind.Market?
    requires var best := n.book.On(o.side.Opposite()).best; best == INVALID_PRICE || !o.Accepts(best)
    ensures Settled(h, fees, n, o) == PlacedIn(n, o)
  {
    NotCrossingRests(h, n.book, o);
    assert n.reports + [] == n.reports;
  }

  /** The session after a command. */
  ghost function Processed(h: HashOrder, fees: Fees, n: Session, c: Command): Session {
    if WF(n.book) then
      var r := Apply(h, n.book, c);
      Session(r.book, n.reports + Reports(fees, r.fills), ChargeAll(Counted(n.counters, n.book, c), fees, r.fills))
    else n
  }

  lemma ProcessedIsNext(h: HashOrder, fees: Fees, n: Session, c: Command)
    requires WF(n.book)
    ensures var n1 := Processed(h, fees, n, c);
      && State(n1.book, fees, n1.counters) == Next(h, State(n.book, fees, n.counters), c)
      && n1.reports == n.reports + Reports(fees, Apply(h, n.book, c).fills)
  {
  }

  function OrderCounted(n: Session): Session {
    n.(counters := n.counters.(orders := n.counters.orders + 1))
  }

  lemma ProcessedNew(h: HashOrder, fees: Fees, n: Session, c: Command)
    requires WF(n.book) && c.NewOrder?
    ensures !ValidNew(c.kind, c.price, c.qty, c.display) ==> Processed(h, fees, n, c) == OrderCounted(n)
    ensures ValidNew(c.kind, c.price, c.qty, c.display) ==>
      Processed(h, fees, n, c) == Settled(h, fees, OrderCounted(n), OrderOf(c)) && OrderOK(OrderOf(c))
  {
    if ValidNew(c.kind, c.price, c.qty, c.display) {
      OrderOfOK(c);
    }
    assert n.reports + [] == n.reports;
  }

  /** n1 with command c, given in session n, counted. */
  function Counting(n1: Session, n: Session, c: Command): Session {
    n1.(counters := Counted(n.counters, n.book, c))
  }

  /** A command that causes no fills. */
  lemma ProcessedQuietly(h: HashOrder, fees: Fees, n: Session, c: Command, n1: Session)
    requires WF(n.book) && Apply(h, n.book, c).fills == []
    requires n1.book == Apply(h, n.book, c).book && n1.reports == n.reports
    requires n1.counters == Counted(n.counters, n.book, c)
    ensures Same(n1, Processed(h, fees, n, c))
  {
    hide WF, Apply, Counted;
    assert n.reports + [] == n.reports;
  }

  // ---------------------------------------------------------------- runs

  /** Commands cs lead from session n to n1 and emit events. */
  ghost predicate RanTo(h: HashOrder, fees: Fees, n: Session, cs: seq<ClientCommand>, n1: Session, events: seq<Event>) {
    WF(n.book) &&
    var s := State(n.book, fees, n.counters);
    && State(n1.book, fees, n1.counters) == After(h, s, Bodies(cs))
    && n1.reports == n.reports + Reports(fees, Fills(h, s, Bodies(cs)))
    && events == Events(h, s, cs)
  }

  lemma RanNone(h: HashOrder, fees: Fees, n: Session)
    requires WF(n.book)
    ensures RanTo(h, fees, n, [], n, [])
  {
    assert n.reports + [] == n.reports;
  }

  lemma RanNext(h: HashOrder, fees: Fees, n: Session, cs: seq<ClientCommand>, n1: Session, events: seq<Event>,
      c: ClientCommand)
    requires RanTo(h, fees, n, cs, n1, events)
    ensures WF(n1.book)
    ensures var ev := EventOf(h, State(n1.book, fees, n1.counters), c);
      RanTo(h, fees, n, cs + [c], Processed(h, fees, n1, c.body), if ev.Some? then events + [ev.value] else events)
  {
    hide WF, Apply, EventOf, Counted, Reports, ChargeAll, Processed, Next;
    var cs', s := cs + [c], State(n.book, fees, n.counters);
    assert cs'[..|cs|] == cs;
    assert Bodies(cs')[..|cs|] == Bodies(cs) && Bodies(cs')[|cs|] == c.body;
    ProcessedIsNext(h, fees, n1, c.body);
    ReportsAppend(fees, Fills(h, s, Bodies(cs)), Apply(h, n1.book, c.body).fills);
  }

  // ---------------------------------------------------------------- what the callback adds up to

  function MakerFees(reports: seq<FillReport>): int {
    if reports == [] then 0 else reports[0].makerFee + MakerFees(reports[1..])
  }

  function TakerFees(reports: seq<FillReport>): int {
    if reports == [] then 0 else reports[0].takerFee + TakerFees(reports[1..])
  }

  lemma {:induction false} FeesAppend(a: seq<FillReport>, b: seq<FillReport>)
    ensures MakerFees(a + b) == MakerFees(a) + MakerFees(b) && TakerFees(a + b) == TakerFees(a) + TakerFees(b)
  {
    if a == [] {
      assert a + b == b;
    } else {
      assert (a + b)[1..] == a[1..] + b;
      FeesAppend(a[1..], b);
    }
  }

  /** The counters are the totals of what the callback has been handed. */
  ghost predicate Tallied(n: Session) {
    && n.counters.fills == |n.reports|
    && n.counters.rebates == -MakerFees(n.reports)
    && n.counters.takerFees == TakerFees(n.reports)
  }

  lemma {:induction false} ChargedTally(c: Counters, fees: Fees, fills: seq<Fill>)
    ensures var c', rs := ChargeAll(c, fees, fills), Reports(fees, fills);
      && c'.fills == c.fills + |rs|
      && c'.rebates == c.rebates - MakerFees(rs)
      && c'.takerFees == c.takerFees + TakerFees(rs)
    decreases |fills|
  {
    if |fills| > 0 {
      hide Fees.Rebate, Fees.TakerFee;
      ChargedTally(Charge(c, fees, fills[0]), fees, fills[1..]);
      var rest := Reports(fees, fills[1..]);
      assert ([ReportOf(fees, fills[0])] + rest)[1..] == rest;
    }
  }

  lemma ProcessedTallied(h: HashOrder, fees: Fees, n: Session, c: Command)
    requires Tallied(n)
    ensures Tallied(Processed(h, fees, n, c))
  {
    if WF(n.book) {
      hide WF, Reports, ChargeAll, MakerFees, TakerFees, Apply;
      var fills := Apply(h, n.book, c).fills;
      ChargedTally(Counted(n.counters, n.book, c), fees, fills);
      FeesAppend(n.reports, Reports(fees, fills));
    }
  }

  /** Where a run has led after commands cs. */
  ghost function Reached(h: HashOrder, fees: Fees, n: Session, cs: seq<ClientCommand>): Session
    requires WF(n.book)
  {
    var s := State(n.book, fees, n.counters);
    var st := After(h, s, Bodies(cs));
    Session(st.book, n.reports + Reports(fees, Fills(h, s, Bodies(cs))), st.counters)
  }

  lemma RanReached(h: HashOrder, fees: Fees, n: Session, cs: seq<ClientCommand>)
    requires WF(n.book)
    ensures RanTo(h, fees, n, cs, Reached(h, fees, n, cs), Events(h, State(n.book, fees, n.counters), cs))
  {
    hide WF, After, Events, Fills, Reports;
  }

  lemma RanIsReached(h: HashOrder, fees: Fees, n: Session, cs: seq<ClientCommand>, n1: Session, events: seq<Event>)
    requires RanTo(h, fees, n, cs, n1, events)
    ensures WF(n.book) && n1 == Reached(h, fees, n, cs)
  {
    hide WF, After, Events, Fills, Reports;
  }

  /** Over any run, the counters stay the totals of the reports: every fee counted was reported to the
      callback, fill by fill, and nothing else was. */
  lemma {:induction false} RunTallied(h: HashOrder, fees: Fees, n: Session, cs: seq<ClientCommand>)
    requires WF(n.book) && Tallied(n)
    ensures Tallied(Reached(h, fees, n, cs))
    decreases |cs|
  {
    hide WF, Tallied, Processed, RanTo, Reached, Events, EventOf;
    if cs == [] {
      RanNone(h, fees, n);
      RanIsReached(h, fees, n, cs, n, []);
    } else {
      var init, c := cs[..|cs| - 1], cs[|cs| - 1];
      var n0, events := Reached(h, fees, n, init), Events(h, State(n.book, fees, n.counters), init);
      RunTallied(h, fees, n, init);
      RanReached(h, fees, n, init);
      RanNext(h, fees, n, init, n0, events, c);
      ProcessedTallied(h, fees, n0, c.body);
      var ev := EventOf(h, State(n0.book, fees, n0.counters), c);
      assert init + [c] == cs;
      RanIsReached(h, fees, n, cs, Processed(h, fees, n0, c.body), if ev.Some? then events + [ev.value] else events);
    }
  }

  // ---------------------------------------------------------------- who the callback is told of

  /** Fill f was caused by command c, met by book b: c is a new order, and f a trade between an order of
      the other side that rested and c, at the price of the one that rested and within the limit of c. */
  ghost predicate CausedBy(b: Book, c: Command, f: Fill) {
    && c.NewOrder? && f.taker == c.id && c.id !in b.orders
    && f.maker in b.orders && b.orders[f.maker].side != c.side && f.price == b.orders[f.maker].price
    && (c.kind.Market? || (if c.side.Bid? then f.price <= c.price else f.price >= c.price))
  }

  lemma FillsCaused(h: HashOrder, b: Book, c: Command)
    requires WF(b)
    ensures forall k :: 0 <= k < |Apply(h, b, c).fills| ==> CausedBy(b, c, Apply(h, b, c).fills[k])
  {
    if c.NewOrder? && Accepts(b, c) {
      OrderOfOK(c);
      var o := OrderOf(c);
      var fills := Apply(h, b, c).fills;
      hide WF, OrderOK, Settle, Match, WithinLimit;
      SettledOrders(h, b, o);
      MatchWithinLimit(h, Placed(b, o), o.id);
      forall k | 0 <= k < |fills|
        ensures CausedBy(b, c, fills[k])
      {
        FillCaused(b, c, fills[k]);
      }
    }
  }

  lemma FillCaused(b: Book, c: Command, f: Fill)
    requires c.NewOrder? && Accepts(b, c) && WithinLimit(Placed(b, OrderOf(c)).orders, OrderOf(c), f)
    ensures CausedBy(b, c, f)
  {
  }

  /** Report r, made in a run of commands cs from state s, was caused by the i-th. */
  ghost predicate ReportedAt(h: HashOrder, s: State, cs: seq<Command>, i: nat, r: FillReport)
    requires WF(s.book) && i < |cs|
  {
    && CausedBy(After(h, s, cs[..i]).book, cs[i], r.fill)
    && r.makerFee == -(r.fill.price * r.fill.qty * s.fees.makerBps)
    && r.takerFee == r.fill.price * r.fill.qty * s.fees.takerBps
  }

  ghost predicate Reported(h: HashOrder, s: State, cs: seq<Command>, r: FillReport)
    requires WF(s.book)
  {
    exists i: nat :: i < |cs| && ReportedAt(h, s, cs, i, r)
  }

  lemma ReportedLonger(h: HashOrder, s: State, cs: seq<Command>, init: seq<Command>, r: FillReport)
    requires WF(s.book) && init <= cs && Reported(h, s, init, r)
    ensures Reported(h, s, cs, r)
  {
    hide WF, CausedBy;
    var i: nat :| i < |init| && ReportedAt(h, s, init, i, r);
    assert cs[..i] == init[..i];
    assert ReportedAt(h, s, cs, i, r);
  }

  /** Over any run, every report handed to the callback names, as the taker, the new order that caused it,
      and as the maker an order of the other side that rested in the book that order met; the maker's fee
      is minus the rebate and the taker's the taker fee. */
  lemma {:induction false} RunReports(h: HashOrder, s: State, cs: seq<Command>, k: nat)
    requires WF(s.book) && k < |Fills(h, s, cs)|
    ensures |Reports(s.fees, Fills(h, s, cs))| == |Fills(h, s, cs)|
    ensures Reported(h, s, cs, Reports(s.fees, Fills(h, s, cs))[k])
    decreases |cs|
  {
    hide WF, CausedBy, Apply, Tells, Reports, Reported;
    var init, c := cs[..|cs| - 1], cs[|cs| - 1];
    var b, before := After(h, s, init).book, Fills(h, s, init);
    var fills := Apply(h, b, c).fills;
    ReportsTell(s.fees, before);
    ReportsTell(s.fees, fills);
    ReportsTell(s.fees, before + fills);
    ReportsAppend(s.fees, before, fills);
    if k < |before| {
      RunReports(h, s, init, k);
      ReportedLonger(h, s, cs, init, Reports(s.fees, before)[k]);
    } else {
      FillsCaused(h, b, c);
      LastReported(h, s, cs, fills[k - |before|], Reports(s.fees, fills)[k - |before|]);
    }
  }

  lemma LastReported(h: HashOrder, s: State, cs: seq<Command>, f: Fill, r: FillReport)
    requires WF(s.book) && cs != [] && CausedBy(After(h, s, cs[..|cs| - 1]).book, cs[|cs| - 1], f)
    requires Tells(s.fees, f, r)
    ensures Reported(h, s, cs, r)
  {
    hide WF, CausedBy;
    assert r.fill == f;
    assert ReportedAt(h, s, cs, |cs| - 1, r);
  }
}
