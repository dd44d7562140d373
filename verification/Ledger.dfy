/** Conservation of quantity and of fees over every run of every command. */
module Ledger {
  import opened Types
  import opened LimitOrderBook
  import opened BookInvariants
  import opened Matching
  import opened Settlement
  import opened Engine

  /** One line of the ledger: a quantity accepted, traded between two sides, or withdrawn. */
  datatype Entry =
    | Accepted(id: OrderId, qty: int)
    | Traded(fill: Fill, makerSide: Side, takerSide: Side)
    | Withdrawn(id: OrderId, qty: int)

  // ---------------------------------------------------------------- columns of the ledger

  function Submitted(log: seq<Entry>, x: OrderId): int {
    if log == [] then 0
    else (if log[0].Accepted? && log[0].id == x then log[0].qty else 0) + Submitted(log[1..], x)
  }

  function Executed(log: seq<Entry>, x: OrderId): int {
    if log == [] then 0
    else (if log[0].Traded? && (log[0].fill.maker == x || log[0].fill.taker == x) then log[0].fill.qty else 0)
         + Executed(log[1..], x)
  }

  function TakenBack(log: seq<Entry>, x: OrderId): int {
    if log == [] then 0
    else (if log[0].Withdrawn? && log[0].id == x then log[0].qty else 0) + TakenBack(log[1..], x)
  }

  /** Quantity traded by orders of one side, as maker or as taker. */
  function ExecutedOn(log: seq<Entry>, s: Side): int {
    if log == [] then 0
    else (if log[0].Traded?
          then (if log[0].makerSide == s then log[0].fill.qty else 0)
              + (if log[0].takerSide == s then log[0].fill.qty else 0)
          else 0)
         + ExecutedOn(log[1..], s)
  }

  lemma {:induction false} ColumnsConcat(a: seq<Entry>, b: seq<Entry>, x: OrderId)
    ensures Submitted(a + b, x) == Submitted(a, x) + Submitted(b, x)
    ensures Executed(a + b, x) == Executed(a, x) + Executed(b, x)
    ensures TakenBack(a + b, x) == TakenBack(a, x) + TakenBack(b, x)
    ensures forall s :: ExecutedOn(a + b, s) == ExecutedOn(a, s) + ExecutedOn(b, s)
  {
    if a == [] {
      assert a + b == b;
    } else {
      ColumnsConcat(a[1..], b, x);
      assert (a + b)[1..] == a[1..] + b;
    }
  }

  // ---------------------------------------------------------------- what each command writes

  /** The trades of a match, with the sides the two parties have in the book being matched. */
  function Trades(orders: map<OrderId, Order>, fills: seq<Fill>): seq<Entry> {
    seq(|fills|, i requires 0 <= i < |fills| =>
      Traded(fills[i], SideIn(orders, fills[i].maker), SideIn(orders, fills[i].taker)))
  }

  function SideIn(orders: map<OrderId, Order>, x: OrderId): Side {
    if x in orders then orders[x].side else Bid
  }

  /** What is left of the matched order when it is taken out is withdrawn. */
  function NewOrderEntries(h: HashOrder, b: Book, o: Order): seq<Entry>
    requires WF(b) && Admits(b, o.id) && OrderOK(o)
  {
    TakerSettled(h, b, o);
    var m := Match(h, Settlement.Placed(b, o), o.id);
    [Accepted(o.id, o.qty)] + Trades(Settlement.Placed(b, o).orders, m.fills)
    + if Leaves(m.book.orders[o.id]) then [Withdrawn(o.id, m.book.orders[o.id].Remaining())] else []
  }

  function Entries(h: HashOrder, b: Book, c: Command): seq<Entry>
    requires WF(b)
  {
    match c
    case NewOrder(_, _, _, _, _, _) =>
      if Accepts(b, c) then OrderOfOK(c); NewOrderEntries(h, b, OrderOf(c)) else []
    case CancelOrder(id) => if id in b.orders then [Withdrawn(id, b.orders[id].Remaining())] else []
    case ModifyOrder(id, _, qty) =>
      if ModifyAllowed(b, id, qty) then [Withdrawn(id, b.orders[id].Remaining() - qty)] else []
    case Other => []
  }

  ghost function Log(h: HashOrder, s: State, cs: seq<Command>): seq<Entry>
    requires WF(s.book)
    decreases |cs|
  {
    if cs == [] then [] else
    Log(h, s, cs[..|cs| - 1]) + Entries(h, After(h, s, cs[..|cs| - 1]).book, cs[|cs| - 1])
  }

  // ---------------------------------------------------------------- one command balances

  /** The change a command makes to what x has left is explained by what it wrote about x. */
  ghost predicate Balanced(b: Book, b': Book, log: seq<Entry>, x: OrderId) {
    Rem(b', x) == Rem(b, x) + Submitted(log, x) - Executed(log, x) - TakenBack(log, x)
  }

  lemma {:induction false} TradesColumns(orders: map<OrderId, Order>, fills: seq<Fill>, x: OrderId)
    ensures var log := Trades(orders, fills);
      && Submitted(log, x) == 0
      && TakenBack(log, x) == 0
      && Executed(log, x) == FilledIn(fills, x)
  {
    if fills != [] {
      TradesColumns(orders, fills[1..], x);
      assert Trades(orders, fills)[1..] == Trades(orders, fills[1..]);
    }
  }

  lemma SingleColumns(e: Entry, x: OrderId)
    ensures Submitted([e], x) == if e.Accepted? && e.id == x then e.qty else 0
    ensures TakenBack([e], x) == if e.Withdrawn? && e.id == x then e.qty else 0
    ensures Executed([e], x) == if e.Traded? && (e.fill.maker == x || e.fill.taker == x) then e.fill.qty else 0
  {
    assert [e][1..] == [];
  }

  lemma NewOrderColumns(h: HashOrder, b: Book, o: Order, x: OrderId)
    requires WF(b) && Admits(b, o.id) && OrderOK(o)
    ensures WF(Settlement.Placed(b, o)) && o.id in Settlement.Placed(b, o).orders
    ensures var log, m := NewOrderEntries(h, b, o), Match(h, Settlement.Placed(b, o), o.id);
      && o.id in m.book.orders
      && Submitted(log, x) == (if x == o.id then o.qty else 0)
      && Executed(log, x) == FilledIn(m.fills, x)
      && TakenBack(log, x) == (if x == o.id && Leaves(m.book.orders[x]) then m.book.orders[x].Remaining() else 0)
  {
    TakerSettled(h, b, o);
    var m := Match(h, Settlement.Placed(b, o), o.id);
    var first, trades := [Accepted(o.id, o.qty)], Trades(Settlement.Placed(b, o).orders, m.fills);
    var last := if Leaves(m.book.orders[o.id]) then [Withdrawn(o.id, m.book.orders[o.id].Remaining())] else [];
    TradesColumns(Settlement.Placed(b, o).orders, m.fills, x);
    ColumnsConcat(first, trades, x);
    ColumnsConcat(first + trades, last, x);
    SingleColumns(first[0], x);
    if last != [] {
      SingleColumns(last[0], x);
    }
  }

  lemma NewOrderBalances(h: HashOrder, b: Book, o: Order, x: OrderId)
    requires WF(b) && Admits(b, o.id) && OrderOK(o) && o.filled == 0
    ensures Balanced(b, Settle(h, b, o).book, NewOrderEntries(h, b, o), x)
  {
    hide Settle, Match, NewOrderEntries, Leaves;
    NewOrderColumns(h, b, o, x);
    SettledOrders(h, b, o);
    if x == o.id {
      TakerSettled(h, b, o);
    } else {
      OthersConserved(h, b, o, x);
    }
  }

  lemma CancelBalances(h: HashOrder, b: Book, id: OrderId, x: OrderId)
    requires WF(b) && id in b.orders
    ensures Balanced(b, Remove(h, b, id), [Withdrawn(id, b.orders[id].Remaining())], x)
  {
    RemoveFrame(h, b, id);
    SingleColumns(Withdrawn(id, b.orders[id].Remaining()), x);
  }

  lemma ModifyBalances(h: HashOrder, b: Book, id: OrderId, p: Tick, qty: int, x: OrderId)
    requires WF(b) && ModifyAllowed(b, id, qty)
    ensures Balanced(b, Modify(h, b, id, p, qty), [Withdrawn(id, b.orders[id].Remaining() - qty)], x)
  {
    hide SideOK, OrdersOK, Remove, ModifyDown;
    SingleColumns(Withdrawn(id, b.orders[id].Remaining() - qty), x);
    if p != b.orders[id].price {
      RepriceIsRemoveThenInsert(h, b, id, p, qty);
      RemoveFrame(h, b, id);
    } else if qty < b.orders[id].Remaining() {
      ModifyDownInPlace(b, id, qty);
    }
  }

  lemma NothingBalances(b: Book, x: OrderId)
    ensures Balanced(b, b, [], x)
  {
  }

  lemma CommandBalances(h: HashOrder, b: Book, c: Command, x: OrderId)
    requires WF(b)
    ensures Balanced(b, Apply(h, b, c).book, Entries(h, b, c), x)
  {
    hide WF, Balanced, Settle, NewOrderEntries, Modify, Remove, OrderOK, Admits;
    NothingBalances(b, x);
    match c
    case NewOrder(_, _, _, _, _, _) =>
      if Accepts(b, c) {
        OrderOfOK(c);
        NewOrderBalances(h, b, OrderOf(c), x);
      }
    case CancelOrder(id) =>
      if id in b.orders {
        CancelBalances(h, b, id, x);
      }
    case ModifyOrder(id, p, qty) =>
      if ModifyAllowed(b, id, qty) {
        ModifyBalances(h, b, id, p, qty, x);
      } else {
        RefusedModify(h, b, id, p, qty);
      }
    case Other =>
  }

  lemma RefusedModify(h: HashOrder, b: Book, id: OrderId, p: Tick, qty: int)
    requires !ModifyAllowed(b, id, qty)
    ensures Modify(h, b, id, p, qty) == b
  {
  }

  /** Conservation over every run from an empty book: for every id, what was submitted under it is
      what was executed, plus what is still resting, plus what was withdrawn. Market orders that
      stay spent in the book, icebergs and re-added orders included. */
  lemma {:induction false} QuantityIsConserved(h: HashOrder, capacity: nat, fees: Fees, cs: seq<Command>, x: OrderId)
    ensures WF(Start(capacity, fees).book)
    ensures var s := Start(capacity, fees); var log := Log(h, s, cs);
      Submitted(log, x) == Executed(log, x) + Rem(After(h, s, cs).book, x) + TakenBack(log, x)
    decreases |cs|
  {
    var s := Start(capacity, fees);
    EmptyWF(capacity);
    if cs != [] {
      var init, c := cs[..|cs| - 1], cs[|cs| - 1];
      QuantityIsConserved(h, capacity, fees, init, x);
      CommandBalances(h, After(h, s, init).book, c, x);
      ColumnsConcat(Log(h, s, init), Entries(h, After(h, s, init).book, c), x);
    }
  }

  // ---------------------------------------------------------------- both sides trade the same

  lemma OnceKeepsSides(h: HashOrder, b: Book, taker: OrderId, x: OrderId)
    requires WF(b) && taker in b.orders && CanMatch(b, taker) && x in MatchOnce(h, b, taker).orders
    ensures x in b.orders && MatchOnce(h, b, taker).orders[x].side == b.orders[x].side
  {
    hide WF, CanMatch, MatchOnce;
    MatchOnceOrders(h, b, taker);
  }

  ghost predicate FromOppositeSide(b: Book, taker: OrderId, f: Fill)
    requires taker in b.orders
  {
    f.taker == taker && f.maker in b.orders && b.orders[f.maker].side == b.orders[taker].side.Opposite()
  }

  lemma {:induction false} MatchCrossesSides(h: HashOrder, b: Book, taker: OrderId)
    requires WF(b) && taker in b.orders
    ensures forall k :: 0 <= k < |Match(h, b, taker).fills| ==> FromOppositeSide(b, taker, Match(h, b, taker).fills[k])
    decreases b.orders[taker].Remaining() + |b.orders|
  {
    if CanMatch(b, taker) {
      var b' := MatchOnce(h, b, taker);
      MakerRests(b, taker);
      MatchUnfolds(h, b, taker);
      MatchOnceWF(h, b, taker);
      MatchCrossesSides(h, b', taker);
      hide WF, CanMatch, MatchOnce, Match, FillOf;
      OnceKeepsSides(h, b, taker, taker);
      var fills, rest := Match(h, b, taker).fills, Match(h, b', taker).fills;
      forall k | 0 <= k < |fills|
        ensures FromOppositeSide(b, taker, fills[k])
      {
        if k == 0 {
          FirstFill(b, taker);
        } else {
          assert fills[k] == rest[k - 1] && FromOppositeSide(b', taker, rest[k - 1]);
          OnceKeepsSides(h, b, taker, rest[k - 1].maker);
        }
      }
    }
  }

  lemma FirstFill(b: Book, taker: OrderId)
    requires WF(b) && taker in b.orders && CanMatch(b, taker)
    ensures FromOppositeSide(b, taker, FillOf(b, taker))
  {
    MakerRests(b, taker);
  }

  ghost predicate CrossSides(log: seq<Entry>) {
    forall i :: 0 <= i < |log| && log[i].Traded? ==> log[i].makerSide != log[i].takerSide
  }

  lemma {:induction false} CrossSidesBalance(log: seq<Entry>)
    requires CrossSides(log)
    ensures ExecutedOn(log, Bid) == ExecutedOn(log, Ask)
  {
    if log != [] {
      CrossSidesBalance(log[1..]);
    }
  }

  lemma TradesCrossSides(orders: map<OrderId, Order>, fills: seq<Fill>, first: Entry, last: seq<Entry>)
    requires forall k :: 0 <= k < |fills| ==> SideIn(orders, fills[k].maker) != SideIn(orders, fills[k].taker)
    requires !first.Traded? && CrossSides(last)
    ensures CrossSides([first] + Trades(orders, fills) + last)
  {
  }

  lemma NewOrderCrossesSides(h: HashOrder, b: Book, o: Order)
    requires WF(b) && Admits(b, o.id) && OrderOK(o)
    ensures CrossSides(NewOrderEntries(h, b, o))
  {
    TakerSettled(h, b, o);
    var b1 := Settlement.Placed(b, o);
    var m := Match(h, b1, o.id);
    MatchCrossesSides(h, b1, o.id);
    hide WF, OrderOK, Admits, Match, Settlement.Placed, Leaves, CrossSides;
    forall k | 0 <= k < |m.fills|
      ensures SideIn(b1.orders, m.fills[k].maker) != SideIn(b1.orders, m.fills[k].taker)
    {
      assert FromOppositeSide(b1, o.id, m.fills[k]);
    }
    OneWithdrawal(Withdrawn(o.id, m.book.orders[o.id].Remaining()));
    TradesCrossSides(b1.orders, m.fills, Accepted(o.id, o.qty),
      if Leaves(m.book.orders[o.id]) then [Withdrawn(o.id, m.book.orders[o.id].Remaining())] else []);
  }

  lemma OneWithdrawal(e: Entry)
    requires e.Withdrawn?
    ensures CrossSides([e]) && CrossSides([])
  {
  }

  lemma CommandCrossesSides(h: HashOrder, b: Book, c: Command)
    requires WF(b)
    ensures CrossSides(Entries(h, b, c))
  {
    hide WF, OrderOK, NewOrderEntries;
    if c.NewOrder? && Accepts(b, c) {
      OrderOfOK(c);
      NewOrderCrossesSides(h, b, OrderOf(c));
    }
  }

  /** Over every run, bids have traded exactly as much as asks. */
  lemma {:induction false} SidesTradeAlike(h: HashOrder, s: State, cs: seq<Command>)
    requires WF(s.book)
    ensures ExecutedOn(Log(h, s, cs), Bid) == ExecutedOn(Log(h, s, cs), Ask)
    decreases |cs|
  {
    if cs != [] {
      var init, c := cs[..|cs| - 1], cs[|cs| - 1];
      var b := After(h, s, init).book;
      SidesTradeAlike(h, s, init);
      CommandCrossesSides(h, b, c);
      CrossSidesBalance(Entries(h, b, c));
      ColumnsConcat(Log(h, s, init), Entries(h, b, c), 0);
    }
  }
}
