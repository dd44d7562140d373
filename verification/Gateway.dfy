/** From the client's bytes to the client's messages: requests become engine commands, events become
    messages, and the whole way round is the sequential engine. */
module Gateway {
  import opened Types
  import opened LimitOrderBook
  import opened Depth
  import opened Engine
  import opened Pipeline
  import opened PipelineProgress
  import Wire
  import opened Framing
  import Messages
  import Server
  import Client
  import Layouts

  // ---------------------------------------------------------------- requests and commands

  /** Raw side and order-type bytes that stand for one. */
  predicate Proper(o: Messages.ClientOrder) {
    0 <= o.side <= 1 && 0 <= o.kind <= 2
  }

  function SideOf(n: int): Side {
    if n == 0 then Bid else Ask
  }

  function KindOf(n: int): Kind {
    if n == 0 then Limit else if n == 1 then Market else Iceberg
  }

  predicate IsTick(n: int) {
    MIN_TICK <= n <= MAX_TICK
  }

  /** The command the server queues for a request, if it queues one. */
  function CommandOf(client: nat, r: Server.Request): Option<ClientCommand> {
    match r
    case Submit(o) =>
      if o.id >= 0 && IsTick(o.price) && Proper(o)
      then Some(ClientCommand(client, NewOrder(o.id, SideOf(o.side), KindOf(o.kind), o.price, o.qty, o.display)))
      else None
    case Withdraw(id) => if id >= 0 then Some(ClientCommand(client, Command.CancelOrder(id))) else None
    case Change(id, p, qty) =>
      if id >= 0 && IsTick(p) then Some(ClientCommand(client, Command.ModifyOrder(id, p, qty))) else None
    case Refuse(_, _) => None
    case Ignore => None
  }

  /** The command, if any, that reaches the engine for the frame of a new order: the side byte 0 is a bid
      and 1 an ask, the type byte 0 a limit, 1 a market and 2 an iceberg order, and nothing else about the
      order changes on the way. */
  lemma OrderQueued(client: nat, o: Messages.ClientOrder, known: set<int>)
    requires Messages.Packable(Messages.Order(o))
    ensures var c := CommandOf(client, Server.Dispatch(Messages.OutgoingFrame(Messages.Order(o)), known));
      && (c.Some? <==> o.qty > 0 && (o.kind == 0 ==> o.price > 0) && o.id !in known && o.side < 2 && o.kind < 3)
      && (c.Some? ==> c.value.client == client && Carries(c.value.body, o))
  {
    Server.DispatchMeant(Messages.Order(o), known);
    Layouts.OrderHolds(o);
    Layouts.OrderFields(o);
  }

  ghost predicate Carries(c: Command, o: Messages.ClientOrder) {
    && c.NewOrder? && c.id == o.id && c.price == o.price && c.qty == o.qty && c.display == o.display
    && (o.side == 0 ==> c.side == Bid) && (o.side == 1 ==> c.side == Ask)
    && (o.kind == 0 ==> c.kind == Limit) && (o.kind == 1 ==> c.kind == Market) && (o.kind == 2 ==> c.kind == Iceberg)
  }

  lemma CancelQueued(client: nat, id: int, known: set<int>)
    requires Messages.Packable(Messages.Cancel(id))
    ensures 0 <= id
    ensures CommandOf(client, Server.Dispatch(Messages.OutgoingFrame(Messages.Cancel(id)), known))
         == Some(ClientCommand(client, Command.CancelOrder(id)))
  {
    Server.DispatchMeant(Messages.Cancel(id), known);
    Layouts.CancelBytes(id);
  }

  lemma ModifyQueued(client: nat, id: int, price: int, qty: int, more: seq<Wire.Byte>, known: set<int>)
    requires Wire.Fits(Messages.MODIFY_FORMAT, [id, price, qty])
    ensures 0 <= id && MIN_TICK <= price <= MAX_TICK
    ensures var f := Frame(6, Wire.Pack(Messages.MODIFY_FORMAT, [id, price, qty]) + more);
      CommandOf(client, Server.Dispatch(f, known))
         == if qty <= 0 || price <= 0 then None else Some(ClientCommand(client, Command.ModifyOrder(id, price, qty)))
  {
    var fs: Wire.Format, vs: seq<int> := Messages.MODIFY_FORMAT, [id, price, qty];
    assert fs[0].Holds(vs[0]) && fs[1].Holds(vs[1]);
    Layouts.Powers();
    Server.DispatchModify(id, price, qty, more, known);
    hide Wire.Pack, Server.Dispatch;
  }

  function Commands(client: nat, rs: seq<Server.Request>): seq<ClientCommand> {
    if rs == [] then [] else
    (var c := CommandOf(client, rs[0]); if c.Some? then [c.value] else []) + Commands(client, rs[1..])
  }

  /** The server's answers to the frames of a connection, each with what the engine then holds. */
  function Requests(fs: seq<Frame>, known: seq<set<int>>): seq<Server.Request>
    requires |known| == |fs|
  {
    seq(|fs|, i requires 0 <= i < |fs| => Server.Dispatch(fs[i], known[i]))
  }

  /** The commands that messages ask for, without any bytes in between. */
  function Asked(client: nat, ms: seq<Messages.Outgoing>, known: seq<set<int>>): seq<ClientCommand>
    requires |known| == |ms|
  {
    if ms == [] then [] else
    (match ms[0]
     case Order(o) =>
       if o.qty > 0 && (o.kind == 0 ==> o.price > 0) && o.id !in known[0] && o.id >= 0 && IsTick(o.price)
       then [ClientCommand(client, NewOrder(o.id, if o.side == 0 then Bid else Ask,
                                            if o.kind == 0 then Limit else if o.kind == 1 then Market else Iceberg,
                                            o.price, o.qty, o.display))]
       else []
     case Cancel(id) => if id >= 0 then [ClientCommand(client, Command.CancelOrder(id))] else [])
    + Asked(client, ms[1..], known[1..])
  }

  predicate AllProper(ms: seq<Messages.Outgoing>) {
    forall i :: 0 <= i < |ms| && ms[i].Order? ==> Proper(ms[i].order)
  }

  function Meanings(ms: seq<Messages.Outgoing>, known: seq<set<int>>): seq<Server.Request>
    requires |known| == |ms|
  {
    seq(|ms|, i requires 0 <= i < |ms| => Server.Meant(ms[i], known[i]))
  }

  lemma {:induction false} MeantIsAsked(client: nat, ms: seq<Messages.Outgoing>, known: seq<set<int>>)
    requires |known| == |ms| && AllProper(ms)
    ensures Commands(client, Meanings(ms, known)) == Asked(client, ms, known)
  {
    if ms != [] {
      MeantIsAsked(client, ms[1..], known[1..]);
      assert Meanings(ms, known)[1..] == Meanings(ms[1..], known[1..]);
    }
  }

  // ---------------------------------------------------------------- events and messages

  function ReasonCode(r: Reason): int {
    match r
    case OrderNotFound => Messages.ReasonByte(Messages.OrderNotFound)
    case InvalidModify => Messages.ReasonByte(Messages.InvalidModify)
  }

  /** What the server sends of its own for a message it refuses. */
  function RefusalOf(r: Server.Request): Option<Messages.EngineMsg> {
    if r.Refuse? then Some(Messages.RejectMsg(r.id, Messages.ReasonByte(r.reason))) else None
  }

  /** The answer to a new order that is refused: its id, and 0 for a bad quantity or price, 3 for an id
      that is in use. */
  lemma OrderRefused(o: Messages.ClientOrder, known: set<int>)
    requires Messages.Packable(Messages.Order(o))
    ensures RefusalOf(Server.Dispatch(Messages.OutgoingFrame(Messages.Order(o)), known))
         == if o.qty <= 0 || (o.kind == 0 && o.price <= 0) then Some(Messages.RejectMsg(o.id, 0))
            else if o.id in known then Some(Messages.RejectMsg(o.id, 3))
            else None
  {
    Server.DispatchOrder(o, known);
  }

  /** A book update field by field. */
  function Numbers(u: BookUpdate): seq<int> {
    [u.bestBid, u.bestAsk, u.numBids, u.numAsks] + u.bidPrices + u.bidQtys + u.askPrices + u.askQtys
  }

  function MessageOf(e: Event): Messages.EngineMsg {
    match e
    case Reject(_, id, reason) => Messages.RejectMsg(id, ReasonCode(reason))
    case Update(u) => Messages.BookMsg(Numbers(u))
  }

  function MessagesOf(es: seq<Event>): seq<Messages.EngineMsg> {
    seq(|es|, i requires 0 <= i < |es| => MessageOf(es[i]))
  }

  /** What the client sees of the events: the book updates, field for field, and no rejections. */
  function Seen(es: seq<Event>): seq<Client.Got> {
    if es == [] then [] else
    (match es[0]
     case Reject(_, _, _) => []
     case Update(u) => [Client.GotBook(u.bestBid, u.bestAsk, u.numBids, u.numAsks,
                                       u.bidPrices, u.bidQtys, u.askPrices, u.askQtys)])
    + Seen(es[1..])
  }

  /** The four arrays of every update have ten entries. */
  ghost predicate Padded(es: seq<Event>) {
    forall i :: 0 <= i < |es| && es[i].Update? ==> var u := es[i].book;
      |u.bidPrices| == |u.bidQtys| == |u.askPrices| == |u.askQtys| == 10
  }

  lemma {:induction false} EventsPadded(h: HashOrder, s: State, cs: seq<ClientCommand>)
    requires WF(s.book)
    ensures Padded(Events(h, s, cs))
    decreases |cs|
  {
    hide WF, TopLevels, After, EventOf;
    if cs != [] {
      EventsPadded(h, s, cs[..|cs| - 1]);
      EventPadded(h, After(h, s, Bodies(cs[..|cs| - 1])), cs[|cs| - 1]);
    }
  }

  lemma EventPadded(h: HashOrder, s: State, c: ClientCommand)
    requires WF(s.book)
    ensures EventOf(h, s, c).Some? ==> Padded([EventOf(h, s, c).value])
  {
    hide WF, TopLevels, Apply;
  }

  /** The numbers of a rejection: 2 for an unknown order, 4 for a modify that is not allowed. */
  lemma RejectionCodes(client: nat, id: OrderId)
    ensures MessageOf(Reject(client, id, OrderNotFound)) == Messages.RejectMsg(id, 2)
    ensures MessageOf(Reject(client, id, InvalidModify)) == Messages.RejectMsg(id, 4)
  {
  }

  /** The order of the numbers of an update. */
  lemma NumbersAre(u: BookUpdate, k: nat)
    requires |u.bidPrices| == |u.bidQtys| == |u.askPrices| == |u.askQtys| == 10 && k < 10
    ensures var v := Numbers(u);
      && |v| == 44 && v[0] == u.bestBid && v[1] == u.bestAsk && v[2] == u.numBids && v[3] == u.numAsks
      && v[4 + k] == u.bidPrices[k] && v[14 + k] == u.bidQtys[k]
      && v[24 + k] == u.askPrices[k] && v[34 + k] == u.askQtys[k]
  {
  }

  lemma NumbersCut(u: BookUpdate)
    requires |u.bidPrices| == |u.bidQtys| == |u.askPrices| == |u.askQtys| == 10
    ensures |Numbers(u)| == 44
    ensures Client.BookFrom(Numbers(u)) == Client.GotBook(u.bestBid, u.bestAsk, u.numBids, u.numAsks,
                                                          u.bidPrices, u.bidQtys, u.askPrices, u.askQtys)
  {
    var a, b, c, d, e := [u.bestBid, u.bestAsk, u.numBids, u.numAsks], u.bidPrices, u.bidQtys, u.askPrices, u.askQtys;
    var v: seq<int> := a + b + c + d + e;
    assert Numbers(u) == v;
    assert v[4..14] == b && v[14..24] == c && v[24..34] == d && v[34..44] == e;
  }

  lemma {:induction false} RecoveredIsSeen(es: seq<Event>)
    requires Padded(es)
    ensures Client.RecoveredAll(MessagesOf(es)) == Seen(es)
  {
    if es != [] {
      assert Padded(es[1..]);
      RecoveredIsSeen(es[1..]);
      assert MessagesOf(es)[1..] == MessagesOf(es[1..]);
      if es[0].Update? {
        NumbersCut(es[0].book);
      }
      hide Padded, Client.BookFrom, Numbers;
    }
  }

  // ---------------------------------------------------------------- wire to wire

  /** Bytes in, commands out. */
  lemma InboundCommands(client: nat, ms: seq<Messages.Outgoing>, known: seq<set<int>>, chunks: seq<seq<Wire.Byte>>)
    requires Messages.AllPackable(ms) && AllProper(ms) && |known| == |ms|
    requires Joined(chunks) == Stream(Messages.OutgoingFrames(ms))
    ensures var c := FedAll(Messages.MAX_MSG_SIZE, chunks);
      && !c.oversized && |c.frames| == |ms|
      && Commands(client, Requests(c.frames, known)) == Asked(client, ms, known)
  {
    Server.ClientToServer(ms, chunks);
    var fs := FedAll(Messages.MAX_MSG_SIZE, chunks).frames;
    assert Requests(fs, known) == Meanings(ms, known);
    MeantIsAsked(client, ms, known);
  }

  /** What is left of a stream of messages without its rejects. The server sends rejects of its own, for
      the messages it refuses, between the engine's. */
  function NonRejects(ms: seq<Messages.EngineMsg>): seq<Messages.EngineMsg> {
    if ms == [] then [] else (if ms[0].RejectMsg? then [] else [ms[0]]) + NonRejects(ms[1..])
  }

  lemma {:induction false} RejectsUnseen(ms: seq<Messages.EngineMsg>)
    ensures Client.RecoveredAll(NonRejects(ms)) == Client.RecoveredAll(ms)
  {
    if ms != [] {
      RejectsUnseen(ms[1..]);
      var kept := NonRejects(ms[1..]);
      assert ([ms[0]] + kept)[1..] == kept;
      assert [] + kept == kept;
    }
  }

  /** The bytes sent to a client are those of messages out, which are these events in order, with any
      rejects in between. */
  ghost predicate Delivers(es: seq<Event>, out: seq<Messages.EngineMsg>, outbound: seq<seq<Wire.Byte>>) {
    && Messages.AllRepresentable(out) && Joined(outbound) == Stream(Messages.EngineFrames(out))
    && NonRejects(out) == NonRejects(MessagesOf(es))
  }

  lemma EventsSeen(es: seq<Event>, out: seq<Messages.EngineMsg>, outbound: seq<seq<Wire.Byte>>)
    requires Delivers(es, out, outbound) && Padded(es)
    ensures Client.PollAll(outbound) == Client.Polled(Seen(es), [], false)
  {
    hide Stream, Joined, Messages.EngineFrames, Messages.AllRepresentable, Client.PollAll;
    Client.ServerToClient(out, outbound);
    RejectsUnseen(out);
    RejectsUnseen(MessagesOf(es));
    RecoveredIsSeen(es);
  }

  /** The bytes received are those of the client's messages ms, and cs the commands that the server makes
      of the frames it reads. */
  ghost predicate Arrives(client: nat, ms: seq<Messages.Outgoing>, known: seq<set<int>>,
                          inbound: seq<seq<Wire.Byte>>, cs: seq<ClientCommand>)
  {
    && Messages.AllPackable(ms) && AllProper(ms) && |known| == |ms|
    && Joined(inbound) == Stream(Messages.OutgoingFrames(ms))
    && var fs := FedAll(Messages.MAX_MSG_SIZE, inbound).frames;
       |fs| == |known| ==> cs == Commands(client, Requests(fs, known))
  }

  lemma ArrivesAsAsked(client: nat, ms: seq<Messages.Outgoing>, known: seq<set<int>>,
                       inbound: seq<seq<Wire.Byte>>, cs: seq<ClientCommand>)
    requires Arrives(client, ms, known, inbound, cs)
    ensures |known| == |ms| && cs == Asked(client, ms, known)
  {
    InboundCommands(client, ms, known, inbound);
    hide FedAll, Joined, Stream;
  }

  /** The whole way round. The client's messages arrive in any chunks, the server asks the engine what
      it asks at each, the engine handles the commands in order, and its events go back in any chunks,
      with any rejects of the server's own in between: the client recovers exactly the book updates that
      the sequential engine makes of its messages. */
  lemma WireToWire(h: HashOrder, s: State, client: nat, ms: seq<Messages.Outgoing>, known: seq<set<int>>,
                   inbound: seq<seq<Wire.Byte>>, cs: seq<ClientCommand>,
                   out: seq<Messages.EngineMsg>, outbound: seq<seq<Wire.Byte>>)
    requires WF(s.book) && Arrives(client, ms, known, inbound, cs) && Delivers(Events(h, s, cs), out, outbound)
    ensures Client.PollAll(outbound) == Client.Polled(Seen(Events(h, s, Asked(client, ms, known))), [], false)
  {
    hide WF, Events, Delivers, Padded;
    ArrivesAsAsked(client, ms, known, inbound, cs);
    EventsPadded(h, s, cs);
    EventsSeen(Events(h, s, cs), out, outbound);
  }

  // ---------------------------------------------------------------- through the pipeline

  lemma {:induction false} SeenPrefix(es: seq<Event>, all: seq<Event>)
    requires es <= all
    ensures Seen(es) <= Seen(all)
  {
    if es != [] {
      SeenPrefix(es[1..], all[1..]);
    }
  }

  /** The client, reading without a raise and with no byte left over, has got the first of these. */
  ghost predicate HasRead(seen: Client.Polled, all: seq<Client.Got>) {
    !seen.raised && seen.rest == [] && seen.messages <= all
  }

  lemma PaddedPrefix(es: seq<Event>, all: seq<Event>)
    requires es <= all && Padded(all)
    ensures Padded(es)
  {
    forall i | 0 <= i < |es|
      ensures es[i] == all[i]
    {
    }
  }

  /** At any point of a pipeline's run whose accepted commands are the first of all. */
  lemma SeenSoFar(h: HashOrder, s: State, p: Pipe, all: seq<ClientCommand>,
                  out: seq<Messages.EngineMsg>, outbound: seq<seq<Wire.Byte>>)
    requires WF(s.book) && PipeOK(h, s, p) && p.commands.pushed <= all && Delivers(p.events.popped, out, outbound)
    ensures HasRead(Client.PollAll(outbound), Seen(Events(h, s, all)))
    ensures Quiet(p) && p.commands.pushed == all ==> Client.PollAll(outbound).messages == Seen(Events(h, s, all))
  {
    hide WF, Events, PipeOK, Quiet, Delivers, Padded;
    PoppedArePrefix(h, s, p);
    EventsPadded(h, s, p.commands.pushed);
    PaddedPrefix(p.events.popped, Events(h, s, p.commands.pushed));
    EventsSeen(p.events.popped, out, outbound);
    assert all[..|p.commands.pushed|] == p.commands.pushed;
    EventsOfPrefix(h, s, all, |p.commands.pushed|);
    SeenPrefix(p.events.popped, Events(h, s, all));
    if Quiet(p) {
      Drained(h, s, p);
    }
  }

  /** What every client sees under every interleaving of the two threads. Whoever pushed the commands,
      if the events popped so far have been sent, with any rejects in between, the client has read a
      prefix of the updates that the sequential engine makes of the commands accepted: no update is
      altered, reordered or skipped. */
  lemma ClientSeesPrefix(h: HashOrder, s: State, slots: seq<ClientCommand>, events: seq<Event>, run: seq<Move>,
                         p: Pipe, out: seq<Messages.EngineMsg>, outbound: seq<seq<Wire.Byte>>)
    requires WF(s.book) && slots != [] && events != [] && CanRun(h, s, Started(h, s, slots, events), run)
    requires p == Outcome(h, s, Started(h, s, slots, events), run) && Delivers(p.events.popped, out, outbound)
    ensures HasRead(Client.PollAll(outbound), Seen(Events(h, s, p.commands.pushed)))
  {
    hide WF, Events, CanRun, PipeOK, Delivers, HasRead;
    SeenSoFar(h, s, p, p.commands.pushed, out, outbound);
  }

  /** A client that has the server to itself, at any point of any interleaving. As long as the commands
      accepted are the first of those its bytes ask for, it has read a prefix of the updates that the
      sequential engine makes of its messages; and all of them, once every command is accepted and both
      queues are drained without a stop. */
  lemma WireToWirePipelined(h: HashOrder, s: State, slots: seq<ClientCommand>, events: seq<Event>, run: seq<Move>,
                            p: Pipe, client: nat, ms: seq<Messages.Outgoing>, known: seq<set<int>>,
                            inbound: seq<seq<Wire.Byte>>, cs: seq<ClientCommand>,
                            out: seq<Messages.EngineMsg>, outbound: seq<seq<Wire.Byte>>)
    requires WF(s.book) && slots != [] && events != [] && CanRun(h, s, Started(h, s, slots, events), run)
    requires p == Outcome(h, s, Started(h, s, slots, events), run) && Delivers(p.events.popped, out, outbound)
    requires Arrives(client, ms, known, inbound, cs) && p.commands.pushed <= cs
    ensures |known| == |ms|
    ensures HasRead(Client.PollAll(outbound), Seen(Events(h, s, Asked(client, ms, known))))
    ensures Quiet(p) && p.commands.pushed == cs ==>
              Client.PollAll(outbound).messages == Seen(Events(h, s, Asked(client, ms, known)))
  {
    hide WF, Events, CanRun, PipeOK, Delivers, HasRead, Quiet, Arrives;
    ArrivesAsAsked(client, ms, known, inbound, cs);
    SeenSoFar(h, s, p, cs, out, outbound);
  }

  /** And from any such point before a stop, the threads' own moves lead to where a client that is sent
      what was popped has read all the updates of the commands accepted. */
  lemma ClientWillSee(h: HashOrder, s: State, p: Pipe) returns (run: seq<Move>)
    requires PipeOK(h, s, p) && !p.stopped && |p.events.slots| >= 2
    ensures WF(s.book) && OwnMoves(run) && CanRun(h, s, p, run)
    ensures var p' := Outcome(h, s, p, run);
      forall out, outbound :: Delivers(p'.events.popped, out, outbound) ==>
        Client.PollAll(outbound) == Client.Polled(Seen(Events(h, s, p.commands.pushed)), [], false)
  {
    run := EventsFollow(h, s, p);
    EventsPadded(h, s, p.commands.pushed);
    var popped := Outcome(h, s, p, run).events.popped;
    hide WF, Events, CanRun, PipeOK, Delivers, Outcome, OwnMoves, Padded;
    forall out, outbound | Delivers(popped, out, outbound)
      ensures Client.PollAll(outbound) == Client.Polled(Seen(Events(h, s, p.commands.pushed)), [], false)
    {
      EventsSeen(popped, out, outbound);
    }
  }
}
