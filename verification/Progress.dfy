/** The two threads get on with it. From every state that the pipeline can be in, and as long as no stop
    is called, their own moves lead to a state in which every accepted command has been handled and every
    event popped; and once a stop is called, the engine thread's own moves lead out of its loop. */
module PipelineProgress {
  import opened LimitOrderBook
  import opened Engine
  import opened Types
  import opened SpscProtocol
  import opened Pipeline

  // ---------------------------------------------------------------- what is left to do

  /** Moves left inside pop, of a thread that has something to pop. */
  function PopLeft<T>(q: Queue<T>): nat {
    match q.consumer
    case Resting => if |q.popped| < |q.pushed| then 4 else 0
    case Looking(_) => 3
    case Found(_) => 2
    case Taken(_, _) => 1
  }

  /** The same inside push. */
  function PushLeft<T>(q: Queue<T>): nat {
    match q.producer
    case Idle => 4
    case Begun(_, _) => 3
    case Cleared(_, _) => 2
    case Stored(_, _) => 1
  }

  /** Commands not yet popped, and events not yet popped. */
  function Pending(p: Pipe): int {
    |p.commands.pushed| - |p.commands.popped|
  }

  function Unread(p: Pipe): int {
    |p.events.pushed| - |p.events.popped|
  }

  /** What is left of the engine thread's present round. */
  function RoundLeft(p: Pipe): nat {
    match p.place
    case Exited => 0
    case Top => if Pending(p) > 0 then 6 else 0
    case Popping => if p.commands.consumer.Resting? then 5 else 1 + PopLeft(p.commands)
    case Handling(_) => 40
    case Refused(_) => 35
    case Sending(_) => 30 + PushLeft(p.events)
  }

  function Left(p: Pipe): int {
    50 * Pending(p) + RoundLeft(p) + 10 * Unread(p) + PopLeft(p.events)
  }

  // ---------------------------------------------------------------- the next move

  /** A move with up-to-date index reads that takes the thread inside pop further. */
  function PopMove<T>(q: Queue<T>): Action<T> {
    match q.consumer
    case Resting => PopBegin
    case Looking(_) => PopLook(q.writeCount)
    case Found(_) => PopTake
    case Taken(_, _) => PopCommit
  }

  function PushMove<T>(q: Queue<T>, x: T): Action<T> {
    match q.producer
    case Idle => PushBegin(x)
    case Begun(_, _) => PushLook(q.readCount)
    case Cleared(_, _) => PushStore
    case Stored(_, _) => PushCommit
  }

  /** The I/O thread first pops what there is; then the engine thread goes on. */
  function NextMove(p: Pipe): Move {
    if !p.events.consumer.Resting? || Unread(p) > 0 then IoPop(PopMove(p.events)) else
    match p.place
    case Top | Exited => Check(true)
    case Popping => EnginePop(PopMove(p.commands))
    case Handling(_) => Handle
    case Sending(ev) => EnginePush(PushMove(p.events, ev))
    case Refused(_) => Retry(true)
  }

  lemma PopMoves<T>(q: Queue<T>)
    requires Inv(q)
    ensures var a := PopMove(q); Enabled(q, a) && !IsPush(a) && (StepInv(q, a); var q' := Step(q, a);
      && Inv(q') && q'.pushed == q.pushed && q'.producer == q.producer && |q'.slots| == |q.slots|
      && |q.popped| <= |q.pushed|
      && q'.popped == (if a.PopCommit? then q.popped + [q.consumer.item] else q.popped)
      && (q'.consumer.Resting? <==> a.PopCommit? || (a.PopLook? && |q.popped| == |q.pushed|))
      && (a.PopCommit? <==> q.consumer.Taken?)
      && (a.PopBegin? || !q'.consumer.Resting? ==> PopLeft(q') < PopLeft(q) || q.consumer.Resting?)
      && (a.PopBegin? ==> q'.consumer.Looking?)
      && (a.PopCommit? ==> |q.popped| < |q.pushed|))
  {
    var a := PopMove(q);
    StepInv(q, a);
    if a.PopLook? {
      EmptyIff(q, q.writeCount);
    }
  }

  lemma PushMoves<T>(q: Queue<T>, x: T)
    requires Inv(q) && |q.slots| >= 2 && (q.producer.Begun? ==> |q.popped| == |q.pushed|)
    ensures var a := PushMove(q, x); Enabled(q, a) && IsPush(a) && (StepInv(q, a); var q' := Step(q, a);
      && Inv(q') && q'.popped == q.popped && q'.consumer == q.consumer && |q'.slots| == |q.slots|
      && (a.PushBegin? ==> a.item == x)
      && q'.pushed == (if a.PushCommit? then q.pushed + [q.producer.item] else q.pushed)
      && (q'.producer.Idle? <==> a.PushCommit?) && (a.PushCommit? <==> q.producer.Stored?)
      && (!a.PushCommit? ==> PushLeft(q') < PushLeft(q)))
  {
    var a := PushMove(q, x);
    StepInv(q, a);
    if a.PushLook? {
      FullIff(q, q.readCount);
    }
  }

  // ---------------------------------------------------------------- each move leaves less to do

  /** The queues are good, nothing was stopped, and the event queue can hold an event. */
  ghost predicate Live(p: Pipe) {
    && Inv(p.commands) && Inv(p.events) && PlaceOK(p) && LossOK(p) && WF(p.engine.book)
    && !p.stopped && |p.events.slots| >= 2
  }

  /** From p to p' less is left to do, and no command was pushed. */
  ghost predicate Nearer(p: Pipe, p': Pipe) {
    && p'.commands.pushed == p.commands.pushed && Left(p') < Left(p)
    && !p'.stopped && |p'.events.slots| == |p.events.slots|
  }

  lemma IoNearer(h: HashOrder, p: Pipe)
    requires Live(p) && (!p.events.consumer.Resting? || Unread(p) > 0)
    ensures CanMove(p, NextMove(p)) && Nearer(p, Moved(h, p, NextMove(p)))
  {
    hide Inv, Step, Enabled, WF;
    PopMoves(p.events);
    StepInv(p.events, PopMove(p.events));
  }

  /** Nothing is left for the I/O thread to pop. */
  ghost predicate EventsRead(p: Pipe) {
    p.events.consumer.Resting? && Unread(p) == 0
  }

  lemma PopNearer(h: HashOrder, p: Pipe)
    requires Live(p) && EventsRead(p) && p.place.Popping?
    ensures CanMove(p, NextMove(p)) && Nearer(p, Moved(h, p, NextMove(p)))
  {
    hide Inv, Step, Enabled, WF;
    PopMoves(p.commands);
    StepInv(p.commands, PopMove(p.commands));
  }

  lemma SendNearer(h: HashOrder, p: Pipe)
    requires Live(p) && EventsRead(p) && p.place.Sending?
    ensures CanMove(p, NextMove(p)) && Nearer(p, Moved(h, p, NextMove(p)))
  {
    hide Inv, Step, Enabled, WF;
    PushMoves(p.events, p.place.ev);
    StepInv(p.events, PushMove(p.events, p.place.ev));
  }

  lemma OtherNearer(h: HashOrder, p: Pipe)
    requires Live(p) && EventsRead(p) && !Quiet(p) && !p.place.Popping? && !p.place.Sending?
    ensures CanMove(p, NextMove(p)) && Nearer(p, Moved(h, p, NextMove(p)))
  {
    hide Inv, Step, Enabled, WF, EventOf, Next;
    Popped(p.commands);
    Popped(p.events);
  }

  lemma Popped<T>(q: Queue<T>)
    requires Inv(q)
    ensures |q.popped| <= |q.pushed| && (|q.popped| == |q.pushed| ==> q.popped == q.pushed)
  {
  }

  lemma NextNearer(h: HashOrder, p: Pipe)
    requires Live(p) && !Quiet(p)
    ensures CanMove(p, NextMove(p)) && Nearer(p, Moved(h, p, NextMove(p)))
  {
    Popped(p.events);
    hide Inv, WF, PlaceOK, LossOK, Quiet, CanMove, Moved, Nearer, NextMove;
    if !EventsRead(p) {
      IoNearer(h, p);
    } else if p.place.Popping? {
      PopNearer(h, p);
    } else if p.place.Sending? {
      SendNearer(h, p);
    } else {
      OtherNearer(h, p);
    }
  }

  // ---------------------------------------------------------------- all the way

  /** Neither a stop nor a push of a command. */
  predicate OwnMoves(run: seq<Move>) {
    forall i :: 0 <= i < |run| ==> !run[i].Stop? && !run[i].IoPush?
  }

  /** The run leads from p to a quiet state, and no command was pushed. */
  ghost predicate Completes(h: HashOrder, s: State, p: Pipe, run: seq<Move>)
    requires PipeOK(h, s, p)
  {
    && OwnMoves(run) && CanRun(h, s, p, run)
    && Quiet(Outcome(h, s, p, run)) && Outcome(h, s, p, run).commands.pushed == p.commands.pushed
  }

  lemma LiveIs(h: HashOrder, s: State, p: Pipe)
    requires PipeOK(h, s, p) && !p.stopped && |p.events.slots| >= 2
    ensures Live(p) && 0 <= Left(p)
  {
    Popped(p.commands);
    Popped(p.events);
    hide Inv, PlaceOK, LossOK, WF, InStep;
  }

  /** One move, and a run from where it leads. */
  lemma RunFrom(h: HashOrder, s: State, p: Pipe, m: Move, run: seq<Move>, p': Pipe, all: seq<Move>)
    requires PipeOK(h, s, p) && CanMove(p, m) && WF(p.engine.book) && p' == Moved(h, p, m)
    requires PipeOK(h, s, p') && CanRun(h, s, p', run) && all == [m] + run
    ensures CanRun(h, s, p, all) && Outcome(h, s, p, all) == Outcome(h, s, p', run)
  {
    hide PipeOK, CanMove, Moved, WF;
    assert all[0] == m && all[1..] == run;
  }

  lemma OwnMovesFrom(m: Move, run: seq<Move>)
    requires OwnMoves(run) && !m.Stop? && !m.IoPush?
    ensures OwnMoves([m] + run)
  {
  }

  lemma StartsWith(h: HashOrder, s: State, p: Pipe, m: Move, run: seq<Move>, p': Pipe)
    requires PipeOK(h, s, p) && CanMove(p, m) && !m.Stop? && !m.IoPush? && WF(p.engine.book)
    requires p' == Moved(h, p, m) && PipeOK(h, s, p') && Completes(h, s, p', run)
    requires p'.commands.pushed == p.commands.pushed
    ensures Completes(h, s, p, [m] + run)
  {
    hide PipeOK, CanMove, Moved, Quiet, WF, CanRun, Outcome, OwnMoves;
    OwnMovesFrom(m, run);
    RunFrom(h, s, p, m, run, p', [m] + run);
  }

  /** Progress: from every state that the pipeline can be in, as long as no stop was called, the threads'
      own moves lead to where every accepted command is handled and every event popped. */
  lemma {:induction false} Progress(h: HashOrder, s: State, p: Pipe) returns (run: seq<Move>)
    requires PipeOK(h, s, p) && !p.stopped && |p.events.slots| >= 2
    ensures Completes(h, s, p, run)
    decreases Left(p)
  {
    LiveIs(h, s, p);
    hide *;
    if Quiet(p) {
      AlreadyThere(h, s, p);
      run := [];
    } else {
      var m := NextMove(p);
      var p' := OneNearer(h, s, p, m);
      run := Progress(h, s, p');
      StartsWith(h, s, p, m, run, p');
      run := [m] + run;
    }
  }

  lemma OneNearer(h: HashOrder, s: State, p: Pipe, m: Move) returns (p': Pipe)
    requires PipeOK(h, s, p) && !p.stopped && |p.events.slots| >= 2 && !Quiet(p) && m == NextMove(p)
    ensures CanMove(p, m) && !m.Stop? && !m.IoPush? && WF(p.engine.book) && p' == Moved(h, p, m) && PipeOK(h, s, p')
    ensures p'.commands.pushed == p.commands.pushed && 0 <= Left(p') < Left(p)
    ensures !p'.stopped && |p'.events.slots| == |p.events.slots|
  {
    hide Inv, InStep, PlaceOK, LossOK, PushesOperation, PipeOK, CanMove, Moved, Quiet, WF, Live, Left, Nearer;
    LiveIs(h, s, p);
    Parts(h, s, p);
    NextNearer(h, p);
    MoveOK(h, s, p, m);
    p' := Moved(h, p, m);
    NearerParts(p, p');
    LiveIs(h, s, p');
  }

  lemma NearerParts(p: Pipe, p': Pipe)
    requires Nearer(p, p')
    ensures p'.commands.pushed == p.commands.pushed && Left(p') < Left(p)
    ensures !p'.stopped && |p'.events.slots| == |p.events.slots|
  {
  }

  lemma AlreadyThere(h: HashOrder, s: State, p: Pipe)
    requires PipeOK(h, s, p) && Quiet(p)
    ensures Completes(h, s, p, [])
  {
    hide PipeOK, Quiet;
  }

  /** And so, at any point of any interleaving before a stop, the threads' own moves lead to where the I/O
      thread has exactly the sequential engine's events, one for every command accepted so far. */
  lemma EventsFollow(h: HashOrder, s: State, p: Pipe) returns (run: seq<Move>)
    requires PipeOK(h, s, p) && !p.stopped && |p.events.slots| >= 2
    ensures WF(s.book) && OwnMoves(run) && CanRun(h, s, p, run)
    ensures var p' := Outcome(h, s, p, run);
      && p'.commands.pushed == p.commands.pushed
      && p'.events.popped == Events(h, s, p.commands.pushed) && |p'.events.popped| == |p.commands.pushed|
  {
    hide Inv, InStep, PlaceOK, LossOK, PushesOperation, PipeOK, CanRun, Outcome, OwnMoves, WF, Quiet, Events;
    Parts(h, s, p);
    run := Progress(h, s, p);
    Pipeline.Drained(h, s, Outcome(h, s, p, run));
  }

  // ---------------------------------------------------------------- a command goes in

  /** Four moves of the I/O thread. */
  function FourMoves(q: Queue<ClientCommand>, c: ClientCommand): seq<Move> {
    [IoPush(PushBegin(c)), IoPush(PushLook(|q.popped|)), IoPush(PushStore), IoPush(PushCommit)]
  }

  /** One of them, with the first of those left. */
  lemma PushMoved(h: HashOrder, s: State, p: Pipe, a: Action<ClientCommand>, rest: seq<Move>) returns (p': Pipe)
    requires PipeOK(h, s, p) && IsPush(a) && Enabled(p.commands, a) && (a.PushBegin? ==> !a.item.body.Other?)
    ensures Inv(p.commands) && (StepInv(p.commands, a); p' == p.(commands := Step(p.commands, a)))
    ensures PipeOK(h, s, p')
    ensures CanRun(h, s, p', rest) ==>
      var all := [IoPush(a)] + rest; CanRun(h, s, p, all) && Outcome(h, s, p, all) == Outcome(h, s, p', rest)
  {
    hide Inv, InStep, PlaceOK, LossOK, PushesOperation, PipeOK, WF, CanRun, Outcome, Step, Enabled;
    Parts(h, s, p);
    MoveOK(h, s, p, IoPush(a));
    p' := Moved(h, p, IoPush(a));
    StepInv(p.commands, a);
    if CanRun(h, s, p', rest) {
      RunFrom(h, s, p, IoPush(a), rest, p', [IoPush(a)] + rest);
    }
  }

  lemma NoMoves(h: HashOrder, s: State, p: Pipe)
    requires PipeOK(h, s, p)
    ensures CanRun(h, s, p, []) && Outcome(h, s, p, []) == p
  {
    hide PipeOK;
  }

  /** As long as the command queue has room, the I/O thread's own moves put a command in, and nothing else
      changes. */
  lemma CommandGoesIn(h: HashOrder, s: State, p: Pipe, c: ClientCommand)
    requires PipeOK(h, s, p) && p.commands.producer.Idle? && !c.body.Other?
    requires |p.commands.pushed| < |p.commands.popped| + |p.commands.slots| - 1
    ensures CanRun(h, s, p, FourMoves(p.commands, c))
    ensures var p' := Outcome(h, s, p, FourMoves(p.commands, c));
      p'.commands.pushed == p.commands.pushed + [c] && p' == p.(commands := p'.commands)
  {
    var q := p.commands;
    hide InStep, PlaceOK, LossOK, PushesOperation, PipeOK, WF, CanRun, Outcome, SlotsOK, ConsumerOK, ProducerOK;
    Parts(h, s, p);
    var m1, m2, m3, m4 := IoPush(PushBegin(c)), IoPush(PushLook(|q.popped|)), IoPush(PushStore), IoPush(PushCommit);
    var p1 := PushMoved(h, s, p, PushBegin(c), [m2, m3, m4]);
    Parts(h, s, p1);
    FullIff(p1.commands, |q.popped|);
    var p2 := PushMoved(h, s, p1, PushLook(|q.popped|), [m3, m4]);
    var p3 := PushMoved(h, s, p2, PushStore, [m4]);
    var p4 := PushMoved(h, s, p3, PushCommit, []);
    NoMoves(h, s, p4);
    assert [m4] + [] == [m4] && [m3] + [m4] == [m3, m4] && [m2] + [m3, m4] == [m2, m3, m4];
    assert [m1] + [m2, m3, m4] == FourMoves(q, c);
  }

  // ---------------------------------------------------------------- after a stop

  /** The engine thread's next move once it is stopped. */
  function LastMove(p: Pipe): Move {
    match p.place
    case Top | Exited => Check(false)
    case Popping => EnginePop(PopMove(p.commands))
    case Handling(_) => Handle
    case Sending(ev) => EnginePush(PushMove(p.events, ev))
    case Refused(_) => Retry(false)
  }

  /** How far it still is from leaving its loop. */
  function ExitLeft(p: Pipe): nat {
    match p.place
    case Exited => 0
    case Top => 1
    case Refused(_) => 2
    case Sending(_) => 10 + PushLeft(p.events)
    case Handling(_) => 20
    case Popping => if p.commands.consumer.Resting? then 35 else 30 + PopLeft(p.commands)
  }

  lemma AnyPush<T>(q: Queue<T>, x: T)
    requires Inv(q)
    ensures var a := PushMove(q, x); Enabled(q, a) && IsPush(a) && (StepInv(q, a); var q' := Step(q, a);
      && Inv(q') && (a.PushBegin? ==> a.item == x)
      && (a.PushLook? || a.PushCommit? || !q'.producer.Idle?)
      && (!q'.producer.Idle? ==> PushLeft(q') < PushLeft(q)))
  {
    StepInv(q, PushMove(q, x));
  }

  /** Each of these moves brings it nearer. */
  lemma ExitNearer(h: HashOrder, p: Pipe)
    requires Inv(p.commands) && Inv(p.events) && PlaceOK(p) && WF(p.engine.book) && p.stopped && !p.place.Exited?
    ensures CanMove(p, LastMove(p))
    ensures var p' := Moved(h, p, LastMove(p)); ExitLeft(p') < ExitLeft(p) && p'.stopped
  {
    hide Inv, Step, Enabled, WF, EventOf, Next;
    if p.place.Popping? {
      PopMoves(p.commands);
      StepInv(p.commands, PopMove(p.commands));
    } else if p.place.Sending? {
      AnyPush(p.events, p.place.ev);
      StepInv(p.events, PushMove(p.events, p.place.ev));
    }
  }

  /** The run leads from p to where the engine thread has left its loop. */
  ghost predicate LeadsOut(h: HashOrder, s: State, p: Pipe, run: seq<Move>)
    requires PipeOK(h, s, p)
  {
    OwnMoves(run) && CanRun(h, s, p, run) && Outcome(h, s, p, run).place.Exited?
  }

  /** Once a stop is called, whatever it is in the middle of, the engine thread's own moves lead out of
      its loop: a stop that waits for the thread returns. */
  lemma {:induction false} StopReturns(h: HashOrder, s: State, p: Pipe) returns (run: seq<Move>)
    requires PipeOK(h, s, p) && p.stopped
    ensures LeadsOut(h, s, p, run)
    decreases ExitLeft(p)
  {
    hide Inv, InStep, PlaceOK, LossOK, PushesOperation, PipeOK, CanMove, Moved, WF, ExitLeft;
    if p.place.Exited? {
      run := [];
    } else {
      var m := LastMove(p);
      Parts(h, s, p);
      ExitNearer(h, p);
      MoveOK(h, s, p, m);
      var p' := Moved(h, p, m);
      run := StopReturns(h, s, p');
      hide CanRun, Outcome, OwnMoves;
      OwnMovesFrom(m, run);
      RunFrom(h, s, p, m, run, p', [m] + run);
      run := [m] + run;
    }
  }
}
