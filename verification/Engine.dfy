/** The sequential engine as a function: one client command in, one event out, fills on the side. */
module Engine {
  import opened Types
  import opened LimitOrderBook
  import opened BookInvariants
  import opened Matching
  import opened Settlement
  import opened Depth

  datatype Command =
    | NewOrder(id: OrderId, side: Side, kind: Kind, price: Tick, qty: int, display: int)
    | CancelOrder(id: OrderId)
    | ModifyOrder(id: OrderId, price: Tick, qty: int)
    | Other

  datatype ClientCommand = ClientCommand(client: nat, body: Command)

  datatype Reason = OrderNotFound | InvalidModify

  datatype Event =
    | Reject(client: nat, id: OrderId, reason: Reason)
    | Update(book: BookUpdate)

  datatype Option<+T> = None | Some(value: T)

  /** Fees in 1/10000 ticks: bps of the traded value. */
  datatype Fees = Fees(makerBps: int, takerBps: int) {
    function Rebate(price: Tick, qty: int): int {
      price * qty * makerBps
    }

    function TakerFee(price: Tick, qty: int): int {
      price * qty * takerBps
    }
  }

  const DEFAULT_FEES: Fees := Fees(2, 3)

  datatype Counters = Counters(orders: nat, fills: nat, cancels: nat, changes: nat, rebates: int, takerFees: int)

  datatype State = State(book: Book, fees: Fees, counters: Counters)

  function Start(capacity: nat, fees: Fees): State {
    State(EmptyBook(capacity), fees, Counters(0, 0, 0, 0, 0, 0))
  }

  /** What each fill adds to the counters. */
  function Charge(c: Counters, fees: Fees, f: Fill): Counters {
    c.(fills := c.fills + 1,
       rebates := c.rebates + fees.Rebate(f.price, f.qty),
       takerFees := c.takerFees + fees.TakerFee(f.price, f.qty))
  }

  function ChargeAll(c: Counters, fees: Fees, fills: seq<Fill>): Counters
    decreases |fills|
  {
    if fills == [] then c else ChargeAll(Charge(c, fees, fills[0]), fees, fills[1..])
  }

  /** process_new_order: refused orders change nothing but the order counter. */
  predicate Accepts(b: Book, c: Command)
    requires c.NewOrder?
  {
    ValidNew(c.kind, c.price, c.qty, c.display) && Admits(b, c.id)
  }

  function OrderOf(c: Command): Order
    requires c.NewOrder?
  {
    Incoming(c.id, c.side, c.kind, c.price, c.qty, c.display, 0)
  }

  lemma OrderOfOK(c: Command)
    requires c.NewOrder? && ValidNew(c.kind, c.price, c.qty, c.display)
    ensures OrderOK(OrderOf(c)) && OrderOf(c).id == c.id && OrderOf(c).side == c.side && OrderOf(c).kind == c.kind
    ensures OrderOf(c).filled == 0 && OrderOf(c).Remaining() == c.qty > 0
    ensures !c.kind.Market? ==> OrderOf(c).price == c.price > 0
  {
  }

  /** The book after a command, and the fills it caused. */
  function Apply(h: HashOrder, b: Book, c: Command): MatchResult
    requires WF(b)
  {
    match c
    case NewOrder(_, _, _, _, _, _) =>
      if Accepts(b, c) then OrderOfOK(c); Settle(h, b, OrderOf(c)) else MatchResult(b, [])
    case CancelOrder(id) => MatchResult(Cancel(h, b, id), [])
    case ModifyOrder(id, p, qty) => MatchResult(Modify(h, b, id, p, qty), [])
    case Other => MatchResult(b, [])
  }

  /** A cancel of an unknown order and a refused modify are the commands that are rejected. */
  function RejectionOf(b: Book, c: ClientCommand): Option<Event> {
    match c.body
    case CancelOrder(id) => if id in b.orders then None else Some(Reject(c.client, id, OrderNotFound))
    case ModifyOrder(id, _, qty) =>
      if ModifyAllowed(b, id, qty) then None else Some(Reject(c.client, id, InvalidModify))
    case _ => None
  }

  function Counted(n: Counters, b: Book, c: Command): Counters {
    match c
    case NewOrder(_, _, _, _, _, _) => n.(orders := n.orders + 1)
    case CancelOrder(id) => if id in b.orders then n.(cancels := n.cancels + 1) else n
    case ModifyOrder(id, _, qty) => if ModifyAllowed(b, id, qty) then n.(changes := n.changes + 1) else n
    case Other => n
  }

  function Next(h: HashOrder, s: State, c: Command): State
    requires WF(s.book)
  {
    var r := Apply(h, s.book, c);
    State(r.book, s.fees, ChargeAll(Counted(s.counters, s.book, c), s.fees, r.fills))
  }

  /** The event a command produces: its rejection, else a broadcast of the new book. */
  ghost function EventOf(h: HashOrder, s: State, c: ClientCommand): Option<Event>
    requires WF(s.book)
  {
    if c.body.Other? then None else
    if RejectionOf(s.book, c).Some? then RejectionOf(s.book, c)
    else Some(Update(Snapshot(Apply(h, s.book, c.body).book)))
  }

  // ---------------------------------------------------------------- runs

  lemma ApplyWF(h: HashOrder, b: Book, c: Command)
    requires WF(b)
    ensures WF(Apply(h, b, c).book)
  {
    match c
    case NewOrder(_, _, _, _, _, _) =>
      if Accepts(b, c) {
        OrderOfOK(c);
        SettleWF(h, b, OrderOf(c));
      }
    case CancelOrder(id) => CancelWF(h, b, id);
    case ModifyOrder(id, p, qty) => ModifyWF(h, b, id, p, qty);
    case Other =>
  }

  /** The state after a whole run of commands: every state of every run keeps the ownership partition. */
  ghost function After(h: HashOrder, s: State, cs: seq<Command>): (r: State)
    requires WF(s.book)
    ensures WF(r.book)
    ensures r.fees == s.fees
    decreases |cs|
  {
    if cs == [] then s else
    var before := After(h, s, cs[..|cs| - 1]);
    ApplyWF(h, before.book, cs[|cs| - 1]);
    Next(h, before, cs[|cs| - 1])
  }

  /** All fills of a run, in the order they were emitted. */
  ghost function Fills(h: HashOrder, s: State, cs: seq<Command>): seq<Fill>
    requires WF(s.book)
    decreases |cs|
  {
    if cs == [] then [] else
    Fills(h, s, cs[..|cs| - 1]) + Apply(h, After(h, s, cs[..|cs| - 1]).book, cs[|cs| - 1]).fills
  }

  /** All events of a run. */
  ghost function Events(h: HashOrder, s: State, cs: seq<ClientCommand>): seq<Event>
    requires WF(s.book)
    decreases |cs|
  {
    if cs == [] then [] else
    var e := EventOf(h, After(h, s, Bodies(cs[..|cs| - 1])), cs[|cs| - 1]);
    Events(h, s, cs[..|cs| - 1]) + if e.Some? then [e.value] else []
  }

  function Bodies(cs: seq<ClientCommand>): seq<Command> {
    seq(|cs|, i requires 0 <= i < |cs| => cs[i].body)
  }

  /** Exactly one event per command that names an operation. */
  lemma {:induction false} OneEventPerCommand(h: HashOrder, s: State, cs: seq<ClientCommand>)
    requires WF(s.book) && forall i :: 0 <= i < |cs| ==> !cs[i].body.Other?
    ensures |Events(h, s, cs)| == |cs|
    decreases |cs|
  {
    if cs != [] {
      OneEventPerCommand(h, s, cs[..|cs| - 1]);
    }
  }

  // ---------------------------------------------------------------- who is told what

  /** Command c, met by book b, is answered by event e: a cancel of an unknown id and a modify that names
      an unknown id, or a quantity that is not positive or more than is left, are rejected, to the client
      that sent them, with the reason; everything else is answered by the book. */
  ghost predicate Answered(h: HashOrder, b: Book, c: ClientCommand, e: Event)
    requires WF(b)
  {
    match c.body
    case CancelOrder(id) =>
      if id !in b.orders then e == Reject(c.client, id, OrderNotFound)
      else e == Update(Snapshot(Apply(h, b, c.body).book))
    case ModifyOrder(id, _, qty) =>
      if id !in b.orders || qty <= 0 || qty > b.orders[id].qty - b.orders[id].filled
      then e == Reject(c.client, id, InvalidModify)
      else e == Update(Snapshot(Apply(h, b, c.body).book))
    case _ => e == Update(Snapshot(Apply(h, b, c.body).book))
  }

  lemma EventAnswers(h: HashOrder, s: State, c: ClientCommand)
    requires WF(s.book) && !c.body.Other?
    ensures EventOf(h, s, c).Some? && Answered(h, s.book, c, EventOf(h, s, c).value)
  {
  }

  /** A run of operations, with its last command taken apart. */
  lemma LastEvent(h: HashOrder, s: State, cs: seq<ClientCommand>, init: seq<ClientCommand>, c: ClientCommand)
    requires WF(s.book) && (forall i :: 0 <= i < |cs| ==> !cs[i].body.Other?) && cs == init + [c]
    ensures var st := After(h, s, Bodies(init));
      && EventOf(h, st, c).Some?
      && Events(h, s, cs) == Events(h, s, init) + [EventOf(h, st, c).value] && |Events(h, s, init)| == |init|
      && After(h, s, Bodies(cs)) == Next(h, st, c.body)
      && Fills(h, s, Bodies(cs)) == Fills(h, s, Bodies(init)) + Apply(h, st.book, c.body).fills
  {
    hide WF, Next, Apply, RejectionOf, Snapshot;
    assert cs[..|cs| - 1] == init && cs[|cs| - 1] == c;
    assert Bodies(cs)[..|cs| - 1] == Bodies(init) && Bodies(cs)[|cs| - 1] == c.body;
    EventAnswers(h, After(h, s, Bodies(init)), c);
    forall i | 0 <= i < |init|
      ensures !init[i].body.Other?
    {
      assert init[i] == cs[i];
    }
    OneEventPerCommand(h, s, init);
  }

  /** Over any run of commands that name operations, the k-th event answers the k-th command, as the book
      then was. */
  lemma {:induction false} EventsAnswer(h: HashOrder, s: State, cs: seq<ClientCommand>, k: nat)
    requires WF(s.book) && (forall i :: 0 <= i < |cs| ==> !cs[i].body.Other?) && k < |cs|
    ensures |Events(h, s, cs)| == |cs|
    ensures Answered(h, After(h, s, Bodies(cs[..k])).book, cs[k], Events(h, s, cs)[k])
    decreases |cs|
  {
    hide WF, Answered, EventOf, After, Events, Fills, Next, Apply, Bodies;
    var init, c := cs[..|cs| - 1], cs[|cs| - 1];
    LastEvent(h, s, cs, init, c);
    if k < |init| {
      EventsAnswer(h, s, init, k);
      assert init[..k] == cs[..k];
    } else {
      assert cs[..k] == init;
      EventAnswers(h, After(h, s, Bodies(init)), c);
    }
  }

  // ---------------------------------------------------------------- what is counted

  /** Commands of each kind, and rejections. */
  function NewOrders(cs: seq<ClientCommand>): nat {
    if cs == [] then 0 else NewOrders(cs[..|cs| - 1]) + if cs[|cs| - 1].body.NewOrder? then 1 else 0
  }

  function Rejects(es: seq<Event>): nat {
    if es == [] then 0 else Rejects(es[..|es| - 1]) + if es[|es| - 1].Reject? then 1 else 0
  }

  lemma CountNext(h: HashOrder, s: State, c: ClientCommand)
    requires WF(s.book) && !c.body.Other?
    ensures var n, n', e := s.counters, Next(h, s, c.body).counters, EventOf(h, s, c);
      && n'.orders == n.orders + (if c.body.NewOrder? then 1 else 0)
      && n'.cancels == n.cancels + (if c.body.CancelOrder? && c.body.id in s.book.orders then 1 else 0)
      && n'.fills == n.fills + |Apply(h, s.book, c.body).fills|
      && e.Some?
      && n'.orders + n'.cancels + n'.changes + (if e.value.Reject? then 1 else 0)
         == n.orders + n.cancels + n.changes + 1
  {
    ChargeCounts(Counted(s.counters, s.book, c.body), s.fees, Apply(h, s.book, c.body).fills);
    hide WF, Apply;
  }

  lemma {:induction false} ChargeCounts(c: Counters, fees: Fees, fills: seq<Fill>)
    ensures var c' := ChargeAll(c, fees, fills);
      && c'.orders == c.orders && c'.cancels == c.cancels && c'.changes == c.changes
      && c'.fills == c.fills + |fills|
    decreases |fills|
  {
    if |fills| > 0 {
      ChargeCounts(Charge(c, fees, fills[0]), fees, fills[1..]);
    }
  }

  /** Over any run of commands that name operations: the order counter is the number of new orders, the
      fill counter the number of fills, and every other command is counted as a cancel, counted as a
      change, or rejected. */
  lemma {:induction false} CountersAdd(h: HashOrder, capacity: nat, fees: Fees, cs: seq<ClientCommand>)
    requires WF(Start(capacity, fees).book) && forall i :: 0 <= i < |cs| ==> !cs[i].body.Other?
    ensures var s := Start(capacity, fees); var n := After(h, s, Bodies(cs)).counters;
      && n.orders == NewOrders(cs) && n.fills == |Fills(h, s, Bodies(cs))|
      && n.orders + n.cancels + n.changes + Rejects(Events(h, s, cs)) == |cs|
    decreases |cs|
  {
    hide WF, Next, Apply, EventOf, Fills, Events, Bodies, RejectionOf;
    var s := Start(capacity, fees);
    if cs == [] {
      NothingYet(h, s);
    } else {
      var init, c := cs[..|cs| - 1], cs[|cs| - 1];
      CountersAdd(h, capacity, fees, init);
      LastEvent(h, s, cs, init, c);
      CountNext(h, After(h, s, Bodies(init)), c);
      RejectsNext(Events(h, s, init), EventOf(h, After(h, s, Bodies(init)), c).value);
    }
  }

  lemma NothingYet(h: HashOrder, s: State)
    requires WF(s.book)
    ensures Bodies([]) == [] && After(h, s, Bodies([])) == s && Fills(h, s, Bodies([])) == [] && Events(h, s, []) == []
  {
  }

  lemma RejectsNext(es: seq<Event>, e: Event)
    ensures Rejects(es + [e]) == Rejects(es) + if e.Reject? then 1 else 0
  {
    assert (es + [e])[..|es|] == es;
  }
}
