/** The two-thread pipeline: the I/O thread pushes commands and pops events, the engine thread pops
    commands, handles them, and pushes one event each, retrying while the engine runs. Every
    interleaving of their atomic steps, up to and including one stop. */
module Pipeline {
  import opened LimitOrderBook
  import opened Engine
  import opened Types
  import opened SpscProtocol

  /** Where the engine thread is. */
  datatype Place =
    | Top                          // about to load the running flag
    | Popping                      // inside pop of the command queue
    | Handling(cmd: ClientCommand)
    | Sending(ev: Event)           // inside push of the event queue
    | Refused(ev: Event)           // that push returned false
    | Exited

  datatype Pipe = Pipe(
    commands: Queue<ClientCommand>,
    events: Queue<Event>,
    engine: State,
    place: Place,
    stopped: bool,      // stop has cleared the running flag
    seenStop: bool,     // and the engine thread has seen it
    lost: seq<Event>)   // what the engine gave up on pushing

  datatype Move =
    | IoPush(push: Action<ClientCommand>)
    | IoPop(pop: Action<Event>)
    | Stop
    | Check(running: bool)         // the engine thread loads the flag at the head of its loop
    | EnginePop(take: Action<ClientCommand>)
    | Handle
    | EnginePush(send: Action<Event>)
    | Retry(running: bool)         // and after a refused push

  predicate IsPush<T>(a: Action<T>) {
    a.PushBegin? || a.PushLook? || a.PushStore? || a.PushCommit?
  }

  /** A relaxed load of the flag may miss a stop, but not one that it has already seen. */
  predicate MayLoad(p: Pipe, running: bool) {
    if running then !p.seenStop else p.stopped
  }

  ghost predicate CanMove(p: Pipe, m: Move) {
    match m
    case IoPush(a) => IsPush(a) && Enabled(p.commands, a) && (a.PushBegin? ==> !a.item.body.Other?)
    case IoPop(a) => !IsPush(a) && Enabled(p.events, a)
    case Stop => !p.stopped
    case Check(running) => p.place.Top? && MayLoad(p, running)
    case EnginePop(a) => p.place.Popping? && !IsPush(a) && Enabled(p.commands, a)
    case Handle => p.place.Handling?
    case EnginePush(a) => p.place.Sending? && IsPush(a) && Enabled(p.events, a)
        && (a.PushBegin? ==> a.item == p.place.ev)
    case Retry(running) => p.place.Refused? && MayLoad(p, running)
  }

  ghost function Moved(h: HashOrder, p: Pipe, m: Move): Pipe
    requires Inv(p.commands) && Inv(p.events) && WF(p.engine.book) && CanMove(p, m)
  {
    match m
    case IoPush(a) =>
      StepInv(p.commands, a);
      p.(commands := Step(p.commands, a))
    case IoPop(a) =>
      StepInv(p.events, a);
      p.(events := Step(p.events, a))
    case Stop => p.(stopped := true)
    case Check(running) =>
      p.(place := if running then Popping else Exited, seenStop := p.seenStop || !running)
    case EnginePop(a) =>
      StepInv(p.commands, a);
      var q := Step(p.commands, a);
      p.(commands := q,
         place := if a.PopCommit? then Handling(p.commands.consumer.item)
                  else if a.PopLook? && q.consumer.Resting? then Top
                  else Popping)
    case Handle =>
      var ev := EventOf(h, p.engine, p.place.cmd);
      p.(engine := Next(h, p.engine, p.place.cmd.body), place := if ev.Some? then Sending(ev.value) else Top)
    case EnginePush(a) =>
      StepInv(p.events, a);
      var q := Step(p.events, a);
      p.(events := q,
         place := if a.PushCommit? then Top
                  else if a.PushLook? && q.producer.Idle? then Refused(p.place.ev)
                  else p.place)
    case Retry(running) =>
      if running then p.(place := Sending(p.place.ev))
      else p.(place := Top, seenStop := true, lost := p.lost + [p.place.ev])
  }

  // ---------------------------------------------------------------- the invariant

  /** The commands the engine has finished handling. */
  ghost function Handled(p: Pipe): seq<ClientCommand> {
    if p.place.Handling? && p.commands.popped != [] then p.commands.popped[..|p.commands.popped| - 1]
    else p.commands.popped
  }

  /** Events produced but not yet in the queue. */
  ghost function Waiting(p: Pipe): seq<Event> {
    if p.place.Sending? || p.place.Refused? then [p.place.ev] else []
  }

  /** Each thread is inside at most one queue operation, the one its place says. */
  ghost predicate PlaceOK(p: Pipe) {
    && (p.commands.consumer.Resting? || p.place.Popping?)
    && (p.events.producer.Idle? || (p.place.Sending? && p.events.producer.item == p.place.ev))
    && (p.place.Handling? ==> p.commands.popped != [] && p.commands.popped[|p.commands.popped| - 1] == p.place.cmd)
  }

  /** An event is only given up once the stop is seen, and then the engine does nothing more; nor does
      it leave its loop before. */
  ghost predicate LossOK(p: Pipe) {
    && (p.seenStop ==> p.stopped)
    && (p.place.Exited? ==> p.seenStop)
    && |p.lost| <= 1
    && (p.lost != [] ==> p.seenStop && (p.place.Top? || p.place.Exited?))
    && (p.seenStop ==> p.place.Top? || p.place.Exited?)
  }

  ghost predicate NamesOperations(cs: seq<ClientCommand>) {
    forall i :: 0 <= i < |cs| ==> !cs[i].body.Other?
  }

  ghost predicate PushesOperation(q: Queue<ClientCommand>) {
    && NamesOperations(q.pushed)
    && (!q.producer.Idle? ==> !q.producer.item.body.Other?)
  }

  /** The engine state and the events are those of the sequential engine on the commands handled. */
  ghost predicate InStep(h: HashOrder, s: State, p: Pipe) {
    && WF(s.book)
    && p.engine == Engine.After(h, s, Bodies(Handled(p)))
    && Events(h, s, Handled(p)) == p.events.pushed + Waiting(p) + p.lost
  }

  ghost predicate PipeOK(h: HashOrder, s: State, p: Pipe) {
    && Inv(p.commands) && Inv(p.events)
    && PlaceOK(p) && LossOK(p) && PushesOperation(p.commands)
    && InStep(h, s, p)
  }

  lemma EngineWF(h: HashOrder, s: State, p: Pipe)
    requires PipeOK(h, s, p)
    ensures WF(p.engine.book)
  {
  }

  /** What one more command adds. */
  lemma OneMore(h: HashOrder, s: State, cs: seq<ClientCommand>, c: ClientCommand)
    requires WF(s.book)
    ensures var st := Engine.After(h, s, Bodies(cs)); var ev := EventOf(h, st, c);
      && Engine.After(h, s, Bodies(cs + [c])) == Next(h, st, c.body)
      && Events(h, s, cs + [c]) == Events(h, s, cs) + if ev.Some? then [ev.value] else []
  {
    hide WF, EventOf, Next;
    var cs' := cs + [c];
    assert cs'[..|cs|] == cs;
    assert Bodies(cs')[..|cs|] == Bodies(cs) && Bodies(cs')[|cs|] == c.body;
  }

  /** What a producer step leaves alone and what it does to the producer. */
  lemma PushFrame<T>(q: Queue<T>, a: Action<T>)
    requires Inv(q) && Enabled(q, a) && IsPush(a)
    ensures (StepInv(q, a); var q' := Step(q, a);
      && Inv(q') && q'.popped == q.popped && q'.consumer == q.consumer
      && q'.pushed == (if a.PushCommit? then q.pushed + [q.producer.item] else q.pushed)
      && (a.PushCommit? ==> q'.producer.Idle? && !q.producer.Idle?)
      && (!q'.producer.Idle? ==> q'.producer.item == if a.PushBegin? then a.item else q.producer.item)
      && (!q'.producer.Idle? && !a.PushBegin? ==> !q.producer.Idle?)
      && (q'.producer.Idle? ==> a.PushCommit? || a.PushLook?))
  {
    StepInv(q, a);
    hide Inv;
  }

  lemma PopFrame<T>(q: Queue<T>, a: Action<T>)
    requires Inv(q) && Enabled(q, a) && !IsPush(a)
    ensures (StepInv(q, a); var q' := Step(q, a);
      && Inv(q') && q'.pushed == q.pushed && q'.producer == q.producer
      && (a.PopCommit? ==> q.consumer.Taken?)
      && q'.popped == (if a.PopCommit? then q.popped + [q.consumer.item] else q.popped)
      && (q'.consumer.Resting? <==> a.PopCommit? || (a.PopLook? && q'.consumer.Resting?)))
  {
    StepInv(q, a);
    hide Inv;
  }

  /** A move after which the engine, the commands handled and the events accounted for are the same. */
  lemma StillInStep(h: HashOrder, s: State, p: Pipe, p': Pipe)
    requires InStep(h, s, p) && p'.engine == p.engine && Handled(p') == Handled(p)
    requires p'.events.pushed + Waiting(p') + p'.lost == p.events.pushed + Waiting(p) + p.lost
    ensures InStep(h, s, p')
  {
    hide WF, Handled, Waiting, Events, Engine.After;
  }

  lemma Parts(h: HashOrder, s: State, p: Pipe)
    requires PipeOK(h, s, p)
    ensures Inv(p.commands) && Inv(p.events) && PlaceOK(p) && LossOK(p) && PushesOperation(p.commands)
        && InStep(h, s, p)
    ensures WF(p.engine.book) && WF(s.book)
  {
    hide Inv, PlaceOK, LossOK, PushesOperation, WF;
  }

  lemma Whole(h: HashOrder, s: State, p: Pipe)
    requires Inv(p.commands) && Inv(p.events) && PlaceOK(p) && LossOK(p) && PushesOperation(p.commands)
        && InStep(h, s, p)
    ensures PipeOK(h, s, p)
  {
    hide Inv, PlaceOK, LossOK, PushesOperation, InStep, WF;
  }

  /** The engine handles the command it has popped. */
  lemma HandleOK(h: HashOrder, s: State, p: Pipe)
    requires PipeOK(h, s, p) && CanMove(p, Handle)
    ensures WF(p.engine.book) && PipeOK(h, s, Moved(h, p, Handle))
  {
    hide Inv, Engine.After, Events, Next, EventOf, WF, Bodies, PushesOperation, PlaceOK, LossOK, InStep, PipeOK;
    Parts(h, s, p);
    var p' := Moved(h, p, Handle);
    HandledOne(h, s, p, p');
    Whole(h, s, p');
  }

  lemma HandledOne(h: HashOrder, s: State, p: Pipe, p': Pipe)
    requires PlaceOK(p) && LossOK(p) && InStep(h, s, p) && p.place.Handling? && WF(p.engine.book)
    requires var ev := EventOf(h, p.engine, p.place.cmd);
      p' == p.(engine := Next(h, p.engine, p.place.cmd.body), place := if ev.Some? then Sending(ev.value) else Top)
    ensures PlaceOK(p') && LossOK(p') && InStep(h, s, p')
  {
    hide Engine.After, Events, Next, EventOf, WF, Bodies;
    var cs, c := Handled(p), p.place.cmd;
    assert p.commands.popped == cs + [c];
    assert Handled(p') == p.commands.popped;
    OneMore(h, s, cs, c);
    assert Waiting(p) == [] && p.lost == [];
    assert p.events.pushed + [] + [] == p.events.pushed;
    assert p'.events.pushed + Waiting(p') + [] == p'.events.pushed + Waiting(p');
  }

  lemma EnginePopOK(h: HashOrder, s: State, p: Pipe, a: Action<ClientCommand>)
    requires PipeOK(h, s, p) && CanMove(p, EnginePop(a))
    ensures WF(p.engine.book) && PipeOK(h, s, Moved(h, p, EnginePop(a)))
  {
    hide Inv, Step, Enabled, InStep, WF, PipeOK;
    Parts(h, s, p);
    StepInv(p.commands, a);
    PopFrame(p.commands, a);
    var p' := Moved(h, p, EnginePop(a));
    assert Handled(p') == Handled(p) && Waiting(p') == Waiting(p);
    StillInStep(h, s, p, p');
    Whole(h, s, p');
  }

  lemma EnginePushOK(h: HashOrder, s: State, p: Pipe, a: Action<Event>)
    requires PipeOK(h, s, p) && CanMove(p, EnginePush(a))
    ensures WF(p.engine.book) && PipeOK(h, s, Moved(h, p, EnginePush(a)))
  {
    hide Inv, Step, Enabled, InStep, WF, PushesOperation, PipeOK;
    Parts(h, s, p);
    StepInv(p.events, a);
    PushFrame(p.events, a);
    var p' := Moved(h, p, EnginePush(a));
    assert Handled(p') == Handled(p);
    assert p'.events.pushed + Waiting(p') == p.events.pushed + Waiting(p);
    StillInStep(h, s, p, p');
    Whole(h, s, p');
  }

  /** A move of the I/O thread in the part of a queue that the engine thread does not touch. */
  lemma IoKept(h: HashOrder, s: State, p: Pipe, p': Pipe)
    requires PipeOK(h, s, p)
    requires Inv(p'.commands) && Inv(p'.events) && PushesOperation(p'.commands)
    requires p' == p.(commands := p'.commands, events := p'.events)
    requires p'.commands.consumer == p.commands.consumer && p'.commands.popped == p.commands.popped
    requires p'.events.producer == p.events.producer && p'.events.pushed == p.events.pushed
    ensures PipeOK(h, s, p')
  {
    Parts(h, s, p);
    hide Inv, InStep, WF, PushesOperation, PipeOK;
    StillInStep(h, s, p, p');
    Whole(h, s, p');
  }

  lemma IoPushOK(h: HashOrder, s: State, p: Pipe, a: Action<ClientCommand>)
    requires PipeOK(h, s, p) && CanMove(p, IoPush(a))
    ensures WF(p.engine.book) && PipeOK(h, s, Moved(h, p, IoPush(a)))
  {
    hide Inv, Step, Enabled, InStep, WF, LossOK, PlaceOK, PipeOK;
    Parts(h, s, p);
    StepInv(p.commands, a);
    PushFrame(p.commands, a);
    var p' := Moved(h, p, IoPush(a));
    IoKept(h, s, p, p');
  }

  lemma IoPopOK(h: HashOrder, s: State, p: Pipe, a: Action<Event>)
    requires PipeOK(h, s, p) && CanMove(p, IoPop(a))
    ensures WF(p.engine.book) && PipeOK(h, s, Moved(h, p, IoPop(a)))
  {
    hide Inv, Step, Enabled, InStep, WF, LossOK, PlaceOK, PipeOK;
    Parts(h, s, p);
    StepInv(p.events, a);
    PopFrame(p.events, a);
    var p' := Moved(h, p, IoPop(a));
    IoKept(h, s, p, p');
  }

  /** The engine thread looks at the running flag, or it is cleared. */
  lemma FlagOK(h: HashOrder, s: State, p: Pipe, m: Move)
    requires PipeOK(h, s, p) && CanMove(p, m) && (m.Stop? || m.Check? || m.Retry?)
    ensures WF(p.engine.book) && PipeOK(h, s, Moved(h, p, m))
  {
    hide Inv, InStep, WF, PushesOperation, PipeOK, Step, Enabled;
    Parts(h, s, p);
    var p' := Moved(h, p, m);
    assert p'.commands == p.commands && p'.events == p.events && p'.engine == p.engine;
    Regroup(p.events.pushed, Waiting(p), p.lost, Waiting(p'), p'.lost);
    StillInStep(h, s, p, p');
    Whole(h, s, p');
  }

  lemma Regroup<T>(a: seq<T>, b: seq<T>, c: seq<T>, b': seq<T>, c': seq<T>)
    requires b + c == b' + c'
    ensures a + b + c == a + b' + c'
  {
    assert a + b + c == a + (b + c);
    assert a + b' + c' == a + (b' + c');
  }

  /** Every move of every thread keeps the invariant. */
  lemma MoveOK(h: HashOrder, s: State, p: Pipe, m: Move)
    requires PipeOK(h, s, p) && CanMove(p, m)
    ensures WF(p.engine.book) && PipeOK(h, s, Moved(h, p, m))
  {
    EngineWF(h, s, p);
    hide PipeOK, Moved, WF, CanMove;
    match m
    case IoPush(a) => IoPushOK(h, s, p, a);
    case IoPop(a) => IoPopOK(h, s, p, a);
    case EnginePop(a) => EnginePopOK(h, s, p, a);
    case EnginePush(a) => EnginePushOK(h, s, p, a);
    case Handle => HandleOK(h, s, p);
    case _ => FlagOK(h, s, p, m);
  }

  // ---------------------------------------------------------------- all interleavings

  ghost function Started(h: HashOrder, s: State, commandSlots: seq<ClientCommand>, eventSlots: seq<Event>): (p: Pipe)
    requires WF(s.book) && commandSlots != [] && eventSlots != []
    ensures PipeOK(h, s, p)
  {
    Pipe(Fresh(commandSlots), Fresh(eventSlots), s, Top, false, false, [])
  }

  ghost predicate CanRun(h: HashOrder, s: State, p: Pipe, run: seq<Move>)
    requires PipeOK(h, s, p)
    decreases |run|
  {
    run == [] || (CanMove(p, run[0]) && (MoveOK(h, s, p, run[0]); CanRun(h, s, Moved(h, p, run[0]), run[1..])))
  }

  ghost function Outcome(h: HashOrder, s: State, p: Pipe, run: seq<Move>): (r: Pipe)
    requires PipeOK(h, s, p) && CanRun(h, s, p, run)
    ensures PipeOK(h, s, r)
    decreases |run|
  {
    if run == [] then p else
    MoveOK(h, s, p, run[0]);
    Outcome(h, s, Moved(h, p, run[0]), run[1..])
  }

  lemma {:induction false} EventsOfPrefix(h: HashOrder, s: State, cs: seq<ClientCommand>, n: nat)
    requires WF(s.book) && n <= |cs|
    ensures Events(h, s, cs[..n]) <= Events(h, s, cs)
    decreases |cs|
  {
    hide WF;
    if n == |cs| {
      assert cs[..n] == cs;
    } else {
      var init := cs[..|cs| - 1];
      assert init[..n] == cs[..n];
      EventsOfPrefix(h, s, init, n);
      assert cs == init + [cs[|cs| - 1]];
      OneMore(h, s, init, cs[|cs| - 1]);
    }
  }

  /** The commands handled are a prefix of the commands accepted. */
  lemma HandledPrefix(h: HashOrder, s: State, p: Pipe)
    requires PipeOK(h, s, p)
    ensures |Handled(p)| <= |p.commands.pushed| && Handled(p) == p.commands.pushed[..|Handled(p)|]
  {
    hide Engine.After, Events, WF;
    var popped := p.commands.popped;
    assert popped == p.commands.pushed[..|popped|];
  }

  /** Pipeline refinement: whatever the interleaving, the events the I/O thread has popped are a
      prefix of the events of the sequential engine on the accepted commands. */
  lemma Refinement(h: HashOrder, s: State, cs: seq<ClientCommand>, es: seq<Event>, run: seq<Move>)
    requires WF(s.book) && cs != [] && es != []
    requires CanRun(h, s, Started(h, s, cs, es), run)
    ensures var p := Outcome(h, s, Started(h, s, cs, es), run);
      p.events.popped <= Events(h, s, p.commands.pushed)
  {
    PoppedArePrefix(h, s, Outcome(h, s, Started(h, s, cs, es), run));
  }

  lemma PoppedArePrefix(h: HashOrder, s: State, p: Pipe)
    requires WF(s.book) && PipeOK(h, s, p)
    ensures p.events.popped <= Events(h, s, p.commands.pushed)
  {
    HandledPrefix(h, s, p);
    EventsOfPrefix(h, s, p.commands.pushed, |Handled(p)|);
    assert p.events.popped <= p.events.pushed;
    assert Events(h, s, Handled(p)) == p.events.pushed + Waiting(p) + p.lost;
    hide PipeOK, Events, WF, Handled, Waiting, Inv;
  }

  /** One event per handled command, lost ones included; at most one is lost, and only by a stop. */
  lemma OneEventEach(h: HashOrder, s: State, p: Pipe)
    requires PipeOK(h, s, p)
    ensures |p.events.pushed| + |Waiting(p)| + |p.lost| == |Handled(p)|
    ensures |p.lost| <= if p.stopped then 1 else 0
  {
    HandledPrefix(h, s, p);
    var cs := Handled(p);
    assert NamesOperations(cs);
    OneEventPerCommand(h, s, cs);
    hide Engine.After, Events, WF;
  }

  /** Nothing is under way, nothing is queued, and no stop was called. */
  ghost predicate Quiet(p: Pipe) {
    && !p.stopped && p.place.Top?
    && p.commands.popped == p.commands.pushed && p.events.popped == p.events.pushed
  }

  /** When nothing is under way and no stop was called, every accepted command that was handled has
      its event pushed; if moreover both queues are drained, the I/O thread has exactly the sequential
      engine's events. */
  lemma Drained(h: HashOrder, s: State, p: Pipe)
    requires PipeOK(h, s, p) && Quiet(p)
    ensures p.events.popped == Events(h, s, p.commands.pushed)
    ensures |p.events.popped| == |p.commands.pushed|
  {
    hide PipeOK, Inv, WF, PlaceOK, PushesOperation, LossOK, InStep;
    OneEventEach(h, s, p);
    Parts(h, s, p);
    AtRest(h, s, p);
  }

  lemma AtRest(h: HashOrder, s: State, p: Pipe)
    requires WF(s.book) && InStep(h, s, p) && p.place.Top? && p.lost == []
    ensures Handled(p) == p.commands.popped && Waiting(p) == [] && p.events.pushed == Events(h, s, p.commands.popped)
  {
    hide Engine.After, Events, WF, Bodies;
    assert p.events.pushed + [] + [] == p.events.pushed;
  }
}
