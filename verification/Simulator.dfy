/** The simulator's event loop: a queue ordered by time, a schedule made in advance, and extra order
    flow pushed while it runs. Random draws are functions of how many draws came before. */
module Simulation {

  datatype EventType = MidpriceMove | AgentAction | OrderCancel | BookUpdate | MetricsSample

  datatype Event = Event(timestamp: real, kind: EventType, agent: string)

  /** Latencies are never negative. */
  type Latency = f: nat -> real | forall n :: f(n) >= 0.0 witness (n: nat) => 0.0

  const NOISE: string := "NOISE_0"

  // ---------------------------------------------------------------- counting events

  function Moves(q: seq<Event>): nat {
    if q == [] then 0 else (if q[0].kind.MidpriceMove? then 1 else 0) + Moves(q[1..])
  }

  lemma {:induction false} MovesAppend(a: seq<Event>, b: seq<Event>)
    ensures Moves(a + b) == Moves(a) + Moves(b)
  {
    if a == [] {
      assert a + b == b;
    } else {
      assert (a + b)[1..] == a[1..] + b;
      MovesAppend(a[1..], b);
    }
  }

  lemma MovesPushed(q: seq<Event>, e: Event)
    ensures Moves(q + [e]) == Moves(q) + if e.kind.MidpriceMove? then 1 else 0
  {
    MovesAppend(q, [e]);
    assert [e][1..] == [];
  }

  lemma SplitAt<T>(q: seq<T>, i: nat)
    requires i < |q|
    ensures q == q[..i] + [q[i]] + q[i + 1..]
  {
  }

  lemma MovesRemoved(q: seq<Event>, i: nat)
    requires i < |q|
    ensures Moves(q) == Moves(q[..i] + q[i + 1..]) + if q[i].kind.MidpriceMove? then 1 else 0
  {
    hide Moves;
    var front, back := q[..i], q[i + 1..];
    MovesPushed(front, q[i]);
    SplitAt(q, i);
    MovesAppend(front + [q[i]], back);
    MovesAppend(front, back);
  }

  function Sum(f: nat -> nat, n: nat): nat {
    if n == 0 then 0 else Sum(f, n - 1) + f(n - 1)
  }

  lemma SumNext(f: nat -> nat, n: nat)
    ensures Sum(f, n + 1) == Sum(f, n) + f(n)
  {
  }

  ghost predicate Sorted(ts: seq<real>) {
    forall i, j :: 0 <= i < j < |ts| ==> ts[i] <= ts[j]
  }

  /** One metrics sample in every hundred steps, the first included. */
  function Samples(steps: nat): nat {
    (steps + 99) / 100
  }

  lemma SamplesNext(steps: nat)
    ensures Samples(steps + 1) == Samples(steps) + if steps % 100 == 0 then 1 else 0
  {
  }

  // ---------------------------------------------------------------- the schedule

  /** The actions of all agents on what happens at time t; from is the number of the first sample. */
  function Actions(agents: seq<string>, latency: Latency, t: real, from: nat): seq<Event> {
    seq(|agents|, i requires 0 <= i < |agents| => ActionOf(agents, latency, t, from, i))
  }

  function ActionOf(agents: seq<string>, latency: Latency, t: real, from: nat, i: nat): Event
    requires i < |agents|
  {
    Event(t + latency(from + i), AgentAction, agents[i])
  }

  /** Step k: a move at k times dt, an action per agent, and every hundred steps a sample half a step
      later. */
  function StepEvents(agents: seq<string>, dt: real, latency: Latency, from: nat, k: nat): seq<Event> {
    var t := k as real * dt;
    [Event(t, MidpriceMove, "")] + Actions(agents, latency, t, from + k * |agents|)
      + if k % 100 == 0 then [Event(t + dt * 0.5, MetricsSample, "")] else []
  }

  function Schedule(agents: seq<string>, dt: real, latency: Latency, from: nat, steps: nat): seq<Event> {
    if steps == 0 then []
    else Schedule(agents, dt, latency, from, steps - 1) + StepEvents(agents, dt, latency, from, steps - 1)
  }

  lemma NextStep(heap: seq<Event>, agents: seq<string>, dt: real, latency: Latency, from: nat, k: nat)
    ensures heap + Schedule(agents, dt, latency, from, k) + StepEvents(agents, dt, latency, from, k)
         == heap + Schedule(agents, dt, latency, from, k + 1)
  {
  }

  lemma PrefixNext<T>(xs: seq<T>, i: nat)
    requires i < |xs|
    ensures xs[..i + 1] == xs[..i] + [xs[i]]
  {
  }

  lemma {:induction false} NoMoves(q: seq<Event>)
    requires forall i :: 0 <= i < |q| ==> !q[i].kind.MidpriceMove?
    ensures Moves(q) == 0
  {
    if q != [] {
      NoMoves(q[1..]);
    }
  }

  lemma StepCounts(agents: seq<string>, dt: real, latency: Latency, from: nat, k: nat)
    ensures var q := StepEvents(agents, dt, latency, from, k);
      Moves(q) == 1 && |q| == 1 + |agents| + if k % 100 == 0 then 1 else 0
  {
    var q := StepEvents(agents, dt, latency, from, k);
    assert q[0].kind.MidpriceMove?;
    NoMoves(q[1..]);
  }

  /** The schedule has one move a step, one action per agent a step, and a sample every hundred steps. */
  lemma {:induction false} ScheduleCounts(agents: seq<string>, dt: real, latency: Latency, from: nat, steps: nat)
    ensures var q := Schedule(agents, dt, latency, from, steps);
      Moves(q) == steps && |q| == steps * (1 + |agents|) + (steps + 99) / 100
  {
    if steps > 0 {
      var k := steps - 1;
      ScheduleCounts(agents, dt, latency, from, k);
      StepCounts(agents, dt, latency, from, k);
      MovesAppend(Schedule(agents, dt, latency, from, k), StepEvents(agents, dt, latency, from, k));
      hide StepEvents, Actions, Moves, Samples;
      SamplesNext(k);
      OneMoreTime(k, 1 + |agents|);
    }
  }

  lemma OneMoreTime(k: nat, n: nat)
    ensures (k + 1) * n == k * n + n
  {
  }

  /** Each of them is there at its time. */
  lemma {:induction false} ScheduleHas(agents: seq<string>, dt: real, latency: Latency, from: nat, steps: nat, k: nat)
    requires k < steps
    ensures var q, t, first := Schedule(agents, dt, latency, from, steps), k as real * dt, from + k * |agents|;
      && Event(t, MidpriceMove, "") in q
      && (forall i :: 0 <= i < |agents| ==> Event(t + latency(first + i), AgentAction, agents[i]) in q)
      && (k % 100 == 0 ==> Event(t + dt * 0.5, MetricsSample, "") in q)
  {
    if k == steps - 1 {
      StepHas(agents, dt, latency, from, k);
    } else {
      ScheduleHas(agents, dt, latency, from, steps - 1, k);
    }
  }

  lemma StepHas(agents: seq<string>, dt: real, latency: Latency, from: nat, k: nat)
    ensures var q, t, first := StepEvents(agents, dt, latency, from, k), k as real * dt, from + k * |agents|;
      && Event(t, MidpriceMove, "") in q
      && (forall i :: 0 <= i < |agents| ==> Event(t + latency(first + i), AgentAction, agents[i]) in q)
      && (k % 100 == 0 ==> Event(t + dt * 0.5, MetricsSample, "") in q)
  {
    var t := k as real * dt;
    hide Actions;
    ActionsHave(agents, latency, t, from + k * |agents|);
    var q, acts := StepEvents(agents, dt, latency, from, k), Actions(agents, latency, t, from + k * |agents|);
    assert q[0] == Event(t, MidpriceMove, "");
    forall x | x in acts
      ensures x in q
    {
    }
  }

  lemma ActionsHave(agents: seq<string>, latency: Latency, t: real, from: nat)
    ensures forall i :: 0 <= i < |agents| ==>
      Event(t + latency(from + i), AgentAction, agents[i]) in Actions(agents, latency, t, from)
  {
    var acts := Actions(agents, latency, t, from);
    forall i | 0 <= i < |agents|
      ensures Event(t + latency(from + i), AgentAction, agents[i]) in acts
    {
      assert acts[i] == Event(t + latency(from + i), AgentAction, agents[i]);
    }
  }

  class EventQueue {
    var heap: seq<Event>

    constructor ()
      ensures heap == []
    {
      heap := [];
    }

    method Push(e: Event)
      modifies this
      ensures heap == old(heap) + [e]
    {
      heap := heap + [e];
    }

    /** The place of an event that no other precedes. Which of several is left open. */
    method Earliest() returns (k: nat)
      requires heap != []
      ensures k < |heap| && forall i :: 0 <= i < |heap| ==> heap[k].timestamp <= heap[i].timestamp
    {
      k := 0;
      for j := 1 to |heap|
        invariant k < |heap| && forall i :: 0 <= i < j ==> heap[k].timestamp <= heap[i].timestamp
      {
        if heap[j].timestamp < heap[k].timestamp {
          k := j;
        }
      }
    }

    /** Takes out an earliest event. */
    method Pop() returns (e: Event)
      requires heap != []
      modifies this
      ensures multiset(old(heap)) == multiset(heap) + multiset{e}
      ensures e in old(heap) && forall x :: x in heap ==> x in old(heap)
      ensures forall x :: x in old(heap) ==> e.timestamp <= x.timestamp
      ensures |old(heap)| == |heap| + 1
      ensures Moves(old(heap)) == Moves(heap) + if e.kind.MidpriceMove? then 1 else 0
    {
      var k := Earliest();
      e := heap[k];
      MovesRemoved(heap, k);
      assert heap == heap[..k] + [heap[k]] + heap[k + 1..];
      heap := heap[..k] + heap[k + 1..];
    }
  }

  class Simulator {
    const queue: EventQueue
    const agents: seq<string>
    const totalSteps: nat
    const dt: real
    const hawkes: bool
    const latency: Latency     // of the n-th sample
    const extra: nat -> nat    // order flow that comes with the n-th move
    var samples: nat
    var stepCount: nat
    var currentTime: real
    ghost var popped: seq<real>   // timestamps in the order processed

    constructor (agents: seq<string>, totalSteps: nat, dt: real, hawkes: bool, latency: Latency, extra: nat -> nat)
      ensures fresh(queue) && queue.heap == [] && stepCount == 0 && popped == []
      ensures this.agents == agents && this.totalSteps == totalSteps && this.hawkes == hawkes && this.extra == extra
    {
      queue := new EventQueue();
      this.agents, this.totalSteps, this.dt, this.hawkes := agents, totalSteps, dt, hawkes;
      this.latency, this.extra := latency, extra;
      samples, stepCount, currentTime, popped := 0, 0, 0.0, [];
    }

    /** Events added by the n-th move. */
    function Flow(n: nat): nat {
      if hawkes && NOISE in agents then extra(n) else 0
    }

    /** One action per agent, each its latency after t. */
    method ScheduleAgents(t: real)
      modifies queue, this`samples
      ensures queue.heap == old(queue.heap) + Actions(agents, latency, t, old(samples))
      ensures samples == old(samples) + |agents|
    {
      for i := 0 to |agents|
        invariant samples == old(samples) + i
        invariant queue.heap == old(queue.heap) + Actions(agents, latency, t, old(samples))[..i]
      {
        queue.Push(Event(t + latency(samples), AgentAction, agents[i]));
        samples := samples + 1;
        PrefixNext(Actions(agents, latency, t, old(samples)), i);
      }
      assert Actions(agents, latency, t, old(samples))[..|agents|] == Actions(agents, latency, t, old(samples));
    }

    method ScheduleStep(step: nat, ghost from: nat)
      requires samples == from + step * |agents|
      modifies queue, this`samples
      ensures queue.heap == old(queue.heap) + StepEvents(agents, dt, latency, from, step)
      ensures samples == old(samples) + |agents|
    {
      var t := step as real * dt;
      hide Actions;
      queue.Push(Event(t, MidpriceMove, ""));
      ScheduleAgents(t);
      if step % 100 == 0 {
        queue.Push(Event(t + dt * 0.5, MetricsSample, ""));
      }
    }

    /** Pushes the schedule, step by step. */
    method ScheduleInitialEvents()
      modifies queue, this`samples
      ensures queue.heap == old(queue.heap) + Schedule(agents, dt, latency, old(samples), totalSteps)
      ensures samples == old(samples) + totalSteps * |agents|
    {
      hide StepEvents;
      for step := 0 to totalSteps
        invariant samples == old(samples) + step * |agents|
        invariant queue.heap == old(queue.heap) + Schedule(agents, dt, latency, old(samples), step)
      {
        ScheduleStep(step, old(samples));
        NextStep(old(queue.heap), agents, dt, latency, old(samples), step);
        OneMoreTime(step, |agents|);
      }
    }

    /** A move advances the step count and lets order flow in, each order some latency later. No other
        event changes the queue. */
    method ProcessEvent(e: Event)
      requires forall x :: x in queue.heap ==> e.timestamp <= x.timestamp
      modifies queue, this`samples, this`stepCount
      ensures Moves(queue.heap) == Moves(old(queue.heap))
      ensures stepCount == old(stepCount) + if e.kind.MidpriceMove? then 1 else 0
      ensures |queue.heap| == |old(queue.heap)| + if e.kind.MidpriceMove? then Flow(old(stepCount)) else 0
      ensures forall x :: x in queue.heap ==> e.timestamp <= x.timestamp
      ensures samples == old(samples) + |queue.heap| - |old(queue.heap)|
      ensures queue.heap[..|old(queue.heap)|] == old(queue.heap)
      ensures forall j :: |old(queue.heap)| <= j < |queue.heap| ==>
        queue.heap[j] == Event(e.timestamp + latency(old(samples) + (j - |old(queue.heap)|)), AgentAction, "NOISE_0")
    {
      if e.kind.MidpriceMove? {
        stepCount := stepCount + 1;
        if hawkes {
          AddFlow(e.timestamp, extra(stepCount - 1));
        }
      }
    }

    /** Extra order flow shows as actions of the first noise trader, if there is one, each some latency
        after t. */
    method AddFlow(t: real, n: nat)
      modifies queue, this`samples
      ensures |queue.heap| == |old(queue.heap)| + (if NOISE in agents then n else 0)
      ensures Moves(queue.heap) == Moves(old(queue.heap))
      ensures samples == old(samples) + |queue.heap| - |old(queue.heap)|
      ensures Added(old(queue.heap), queue.heap, t, old(samples))
    {
      for i := 0 to n
        invariant |queue.heap| == |old(queue.heap)| + if NOISE in agents then i else 0
        invariant Moves(queue.heap) == Moves(old(queue.heap))
        invariant samples == old(samples) + |queue.heap| - |old(queue.heap)|
        invariant Added(old(queue.heap), queue.heap, t, old(samples))
      {
        if NOISE in agents {
          var x := Event(t + latency(samples), AgentAction, NOISE);
          samples := samples + 1;
          MovesPushed(queue.heap, x);
          AddedNext(old(queue.heap), queue.heap, t, old(samples), x);
          queue.Push(x);
        }
      }
    }

    /** q has become q' by actions of the first noise trader at time t, with the latencies from the
        from-th on. */
    ghost predicate Added(q: seq<Event>, q': seq<Event>, t: real, from: nat) {
      && |q| <= |q'| && q'[..|q|] == q
      && forall j :: |q| <= j < |q'| ==> q'[j] == Event(t + latency(from + (j - |q|)), AgentAction, NOISE)
    }

    lemma AddedNext(q: seq<Event>, q': seq<Event>, t: real, from: nat, x: Event)
      requires Added(q, q', t, from) && x == Event(t + latency(from + (|q'| - |q|)), AgentAction, NOISE)
      ensures Added(q, q' + [x], t, from)
    {
    }

    /** Time has not run backwards, and nothing pending lies in the past. */
    ghost predicate InOrder()
      reads this, queue
    {
      && Sorted(popped)
      && (popped != [] ==> popped[|popped| - 1] == currentTime)
      && (popped != [] ==> forall x :: x in queue.heap ==> currentTime <= x.timestamp)
    }

    method NextEvent() returns (e: Event)
      requires queue.heap != [] && InOrder()
      modifies queue, this`currentTime, this`popped
      ensures InOrder() && popped == old(popped) + [e.timestamp] && currentTime == e.timestamp
      ensures |old(queue.heap)| == |queue.heap| + 1
      ensures Moves(old(queue.heap)) == Moves(queue.heap) + if e.kind.MidpriceMove? then 1 else 0
    {
      e := queue.Pop();
      currentTime := e.timestamp;
      popped := popped + [e.timestamp];
    }

    /** One round of the loop: either a move is done and its flow added, or another event is. */
    method Round()
      requires queue.heap != [] && InOrder()
      modifies queue, this`currentTime, this`popped, this`samples, this`stepCount
      ensures InOrder() && |popped| == |old(popped)| + 1
      ensures stepCount == old(stepCount) || stepCount == old(stepCount) + 1
      ensures stepCount + Moves(queue.heap) == old(stepCount + Moves(queue.heap))
      ensures |queue.heap| + 1 == |old(queue.heap)| + if stepCount == old(stepCount) then 0 else Flow(old(stepCount))
    {
      var e := NextEvent();
      ProcessEvent(e);
    }

    /** The event loop. It ends, because a move is never added: each round either lowers the number of
        moves pending, or keeps it and shortens the queue. Time never runs backwards. stops says whether
        a stop has been called when the n-th round begins. */
    method Loop(stops: nat -> bool) returns (processed: nat, stopped: bool)
      requires InOrder() && popped == []
      modifies this, queue
      ensures InOrder() && |popped| == processed && (!stopped ==> queue.heap == [])
      ensures stepCount + Moves(queue.heap) == old(stepCount + Moves(queue.heap))
      ensures processed + |queue.heap| + Sum(Flow, old(stepCount)) == |old(queue.heap)| + Sum(Flow, stepCount)
    {
      hide Moves, Sum, InOrder;
      processed, stopped := 0, stops(0);
      while queue.heap != [] && !stopped
        invariant stepCount + Moves(queue.heap) == old(stepCount + Moves(queue.heap))
        invariant processed + |queue.heap| + Sum(Flow, old(stepCount)) == |old(queue.heap)| + Sum(Flow, stepCount)
        invariant InOrder() && |popped| == processed
        decreases Moves(queue.heap), |queue.heap|
      {
        SumNext(Flow, stepCount);
        Round();
        processed := processed + 1;
        stopped := stops(processed);
      }
    }

    /** A run that is not stopped has processed every step, and every event scheduled or added. */
    method Run(stops: nat -> bool) returns (processed: nat, stopped: bool)
      requires queue.heap == [] && stepCount == 0 && popped == []
      modifies this, queue
      ensures Sorted(popped) && |popped| == processed
      ensures !stopped ==> queue.heap == [] && stepCount == totalSteps
      ensures !stopped ==> processed == totalSteps * (1 + |agents|) + (totalSteps + 99) / 100 + Sum(Flow, totalSteps)
      ensures stopped ==> stepCount + Moves(queue.heap) == totalSteps
    {
      ghost var from := samples;
      ScheduleInitialEvents();
      ScheduleCounts(agents, dt, latency, from, totalSteps);
      assert queue.heap == Schedule(agents, dt, latency, from, totalSteps);
      hide Schedule, Samples;
      processed, stopped := Loop(stops);
    }
  }
}
