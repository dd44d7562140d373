/** spsc_queue.hpp as a protocol: push and pop cut into their atomic steps, and every interleaving of
    the two threads. An index store appends to the history of that index; the other thread's load
    returns any entry of the history not older than the one it saw before. */
module SpscProtocol {

  /** Where the producer is inside push. w is the write index it loaded. */
  datatype Producer<T> =
    | Idle
    | Begun(item: T, w: nat)     // own index loaded
    | Cleared(item: T, w: nat)   // other index loaded: there is room
    | Stored(item: T, w: nat)    // slot written, index not yet

  /** Where the consumer is inside pop. r is the read index it loaded. */
  datatype Consumer<T> =
    | Resting
    | Looking(r: nat)
    | Found(r: nat)
    | Taken(r: nat, item: T)

  /** The ring, how often each index was stored, how much of that the other side has seen, and the two
      threads. pushed and popped are the items of the pushes and pops that returned true. */
  datatype Queue<T> = Queue(
    slots: seq<T>,
    writeCount: nat,
    readCount: nat,
    seenReads: nat,
    seenWrites: nat,
    producer: Producer<T>,
    consumer: Consumer<T>,
    pushed: seq<T>,
    popped: seq<T>)
  {
    /** The value of an index after k stores to it: it wraps around the ring. */
    function Index(k: nat): nat
      requires slots != []
    {
      k % |slots|
    }

    function Capacity(): nat
      requires slots != []
    {
      |slots| - 1
    }
  }

  datatype Action<T> =
    | PushBegin(item: T)
    | PushLook(k: nat)     // loads the read index as it was after its k-th store
    | PushStore
    | PushCommit
    | PopBegin
    | PopLook(k: nat)      // loads the write index as it was after its k-th store
    | PopTake
    | PopCommit

  ghost predicate Enabled<T>(q: Queue<T>, a: Action<T>) {
    match a
    case PushBegin(_) => q.producer.Idle?
    case PushLook(k) => q.producer.Begun? && q.seenReads <= k <= q.readCount
    case PushStore => q.producer.Cleared?
    case PushCommit => q.producer.Stored?
    case PopBegin => q.consumer.Resting?
    case PopLook(k) => q.consumer.Looking? && q.seenWrites <= k <= q.writeCount
    case PopTake => q.consumer.Found?
    case PopCommit => q.consumer.Taken?
  }

  /** One atomic step of one of the threads, in terms of the indices the code computes with. */
  ghost function Step<T>(q: Queue<T>, a: Action<T>): Queue<T>
    requires q.slots != [] && Enabled(q, a)
    requires a.PushStore? ==> q.producer.w < |q.slots|
    requires a.PopTake? ==> q.consumer.r < |q.slots|
  {
    var n := |q.slots|;
    match a
    case PushBegin(x) => q.(producer := Begun(x, q.Index(q.writeCount)))
    case PushLook(k) =>
      q.(seenReads := k,
         producer := if (q.producer.w + 1) % n == q.Index(k) then Idle else Cleared(q.producer.item, q.producer.w))
    case PushStore => q.(slots := q.slots[q.producer.w := q.producer.item],
        producer := Stored(q.producer.item, q.producer.w))
    case PushCommit => q.(writeCount := q.writeCount + 1, pushed := q.pushed + [q.producer.item], producer := Idle)
    case PopBegin => q.(consumer := Looking(q.Index(q.readCount)))
    case PopLook(k) =>
      q.(seenWrites := k, consumer := if q.consumer.r == q.Index(k) then Resting else Found(q.consumer.r))
    case PopTake => q.(consumer := Taken(q.consumer.r, q.slots[q.consumer.r]))
    case PopCommit => q.(readCount := q.readCount + 1, popped := q.popped + [q.consumer.item], consumer := Resting)
  }

  ghost function Fresh<T>(slots: seq<T>): (q: Queue<T>)
    requires slots != []
    ensures Inv(q)
  {
    Queue(slots, 0, 0, 0, 0, Idle, Resting, [], [])
  }

  // ---------------------------------------------------------------- the invariant

  ghost predicate IndicesOK<T>(q: Queue<T>) {
    && q.slots != []
    && q.writeCount == |q.pushed| && q.readCount == |q.popped|
    && q.seenReads <= q.readCount <= q.seenWrites <= q.writeCount <= q.seenReads + q.Capacity()
  }

  /** Unread items are in their slots. */
  ghost predicate SlotsOK<T>(q: Queue<T>)
    requires IndicesOK(q)
  {
    forall i :: q.readCount <= i < q.writeCount ==> q.slots[q.Index(i)] == q.pushed[i]
  }

  ghost predicate ProducerOK<T>(q: Queue<T>)
    requires IndicesOK(q)
  {
    match q.producer
    case Idle => true
    case Begun(_, w) => w == q.Index(q.writeCount)
    case Cleared(_, w) => w == q.Index(q.writeCount) && q.writeCount < q.seenReads + q.Capacity()
    case Stored(x, w) => w == q.Index(q.writeCount) && q.writeCount < q.seenReads + q.Capacity() && q.slots[w] == x
  }

  ghost predicate ConsumerOK<T>(q: Queue<T>)
    requires IndicesOK(q)
  {
    match q.consumer
    case Resting => true
    case Looking(r) => r == q.Index(q.readCount)
    case Found(r) => r == q.Index(q.readCount) && q.readCount < q.seenWrites
    case Taken(r, x) => r == q.Index(q.readCount) && q.readCount < q.seenWrites && x == q.pushed[q.readCount]
  }

  ghost predicate Inv<T>(q: Queue<T>) {
    && IndicesOK(q)
    && SlotsOK(q) && ProducerOK(q) && ConsumerOK(q)
    && q.popped == q.pushed[..q.readCount]
  }

  lemma LapsApart(c: nat, a: nat, n: nat)
    requires c < a
    ensures c * n + n <= a * n
  {
    assert a * n == (a - 1) * n + n;
    if c < a - 1 {
      LapsApart(c, a - 1, n);
    }
  }

  /** A remainder is recognised by its decomposition. */
  lemma RemainderIs(x: nat, a: nat, b: nat, n: nat)
    requires n > 0 && b < n && x == a * n + b
    ensures x % n == b
  {
    var c := x / n;
    assert x == c * n + x % n;
    if c < a {
      LapsApart(c, a, n);
    } else if a < c {
      LapsApart(a, c, n);
    }
  }

  /** Two counts less than one lap apart have the same index only if they are equal. */
  lemma SameIndex(i: nat, j: nat, n: nat)
    requires n > 0 && i <= j < i + n && i % n == j % n
    ensures i == j
  {
    var a, b := i / n, j / n;
    assert i == a * n + i % n && j == b * n + j % n;
    if a < b {
      LapsApart(a, b, n);
    }
  }

  /** One lap further the index is the same. */
  lemma LapIndex(k: nat, n: nat)
    requires n > 0
    ensures (k + n) % n == k % n
  {
    assert k == k / n * n + k % n;
    assert k + n == (k / n + 1) * n + k % n;
    RemainderIs(k + n, k / n + 1, k % n, n);
  }

  /** The index one further, wrapped. */
  lemma NextIndex(k: nat, n: nat)
    requires n > 0
    ensures (k % n + 1) % n == (k + 1) % n
  {
    var a, b := k / n, k % n;
    assert k == a * n + b;
    if b + 1 == n {
      RemainderIs(b + 1, 1, 0, n);
      assert k + 1 == (a + 1) * n + 0;
      RemainderIs(k + 1, a + 1, 0, n);
    } else {
      RemainderIs(b + 1, 0, b + 1, n);
      RemainderIs(k + 1, a, b + 1, n);
    }
  }

  /** What the producer concludes from an old read index: full exactly if, counting only the reads it
      has seen, the ring holds capacity items. */
  lemma FullIff<T>(q: Queue<T>, k: nat)
    requires Inv(q) && q.producer.Begun? && q.seenReads <= k <= q.readCount
    ensures (q.producer.w + 1) % |q.slots| == q.Index(k) <==> q.writeCount == k + q.Capacity()
  {
    var n := |q.slots|;
    NextIndex(q.writeCount, n);
    if (q.writeCount + 1) % n == k % n {
      if q.writeCount + 1 < k + n {
        SameIndex(k, q.writeCount + 1, n);
      }
    }
    if q.writeCount == k + q.Capacity() {
      assert q.writeCount + 1 == k + n;
      LapIndex(k, n);
    }
  }

  lemma EmptyIff<T>(q: Queue<T>, k: nat)
    requires Inv(q) && q.consumer.Looking? && q.seenWrites <= k <= q.writeCount
    ensures q.consumer.r == q.Index(k) <==> k == q.readCount
  {
    if q.Index(q.readCount) == q.Index(k) {
      SameIndex(q.readCount, k, |q.slots|);
    }
  }

  /** The slot about to be written holds no unread item. */
  lemma NoUnreadOverwritten<T>(q: Queue<T>, i: nat)
    requires Inv(q) && q.producer.Cleared? && q.readCount <= i < q.writeCount
    ensures q.producer.w != q.Index(i)
  {
    if q.Index(i) == q.Index(q.writeCount) {
      SameIndex(i, q.writeCount, |q.slots|);
    }
  }

  /** The two threads are never at the same slot: what is being read is not being written. */
  lemma NoRace<T>(q: Queue<T>)
    requires Inv(q) && q.producer.Cleared? && q.consumer.Found?
    ensures q.producer.w != q.consumer.r
  {
    NoUnreadOverwritten(q, q.readCount);
  }

  /** The index value each commit stores is the index of the raised count. */
  lemma CommittedIndices<T>(q: Queue<T>)
    requires Inv(q)
    ensures q.producer.Stored? ==> (q.producer.w + 1) % |q.slots| == q.Index(q.writeCount + 1)
    ensures q.consumer.Taken? ==> (q.consumer.r + 1) % |q.slots| == q.Index(q.readCount + 1)
  {
    NextIndex(q.writeCount, |q.slots|);
    NextIndex(q.readCount, |q.slots|);
  }

  /** What each step that is enabled in a good state needs and keeps. */
  lemma StepInv<T>(q: Queue<T>, a: Action<T>)
    requires Inv(q) && Enabled(q, a)
    ensures a.PushStore? ==> q.producer.w < |q.slots|
    ensures a.PopTake? ==> q.consumer.r < |q.slots|
    ensures Inv(Step(q, a))
  {
    match a
    case PushLook(k) => FullIff(q, k);
    case PopLook(k) => EmptyIff(q, k);
    case PushStore =>
      forall i | q.readCount <= i < q.writeCount
        ensures q.producer.w != q.Index(i)
      {
        NoUnreadOverwritten(q, i);
      }
    case _ =>
  }

  // ---------------------------------------------------------------- all interleavings

  /** Every action is enabled when its turn comes. */
  ghost predicate Possible<T>(q: Queue<T>, run: seq<Action<T>>)
    requires Inv(q)
    decreases |run|
  {
    run == [] || (Enabled(q, run[0]) && (StepInv(q, run[0]); Possible(Step(q, run[0]), run[1..])))
  }

  ghost function After<T>(q: Queue<T>, run: seq<Action<T>>): (r: Queue<T>)
    requires Inv(q) && Possible(q, run)
    ensures Inv(r) && |r.slots| == |q.slots|
    decreases |run|
  {
    if run == [] then q else
    StepInv(q, run[0]);
    After(Step(q, run[0]), run[1..])
  }

  /** Safety of every interleaving, with every choice of stale index reads: what was popped is a
      prefix of what was pushed, and never more than capacity items are held. */
  lemma Safety<T>(slots: seq<T>, run: seq<Action<T>>)
    requires slots != [] && Possible(Fresh(slots), run)
    ensures var q := After(Fresh(slots), run);
      q.popped <= q.pushed && |q.pushed| <= |q.popped| + |slots| - 1
  {
  }

  // ---------------------------------------------------------------- refinement of a bounded queue

  /** What the ring holds. */
  ghost function Contents<T>(q: Queue<T>): seq<T>
    requires Inv(q)
  {
    q.pushed[q.readCount..]
  }

  /** Each step is one of a bounded FIFO queue: a push takes effect at its index store and only if
      there is room then, a pop at its index store and hands out the front. All other steps are
      invisible. */
  lemma StepRefines<T>(q: Queue<T>, a: Action<T>)
    requires Inv(q) && Enabled(q, a)
    ensures (StepInv(q, a);
      var c, c' := Contents(q), Contents(Step(q, a));
      match a
      case PushCommit => |c| < q.Capacity() && c' == c + [q.producer.item]
      case PopCommit => c != [] && q.consumer.item == c[0] && c' == c[1..]
      case _ => c' == c)
  {
  }

  /** A push is refused only if the ring was full at some moment since the producer's last look, and
      a pop only if it was empty when the write it looked at was the newest. With up-to-date reads,
      the answers are exact. */
  lemma Refusals<T>(q: Queue<T>, k: nat)
    requires Inv(q)
    ensures Enabled(q, PushLook(k)) ==>
      (Step(q, PushLook(k)).producer.Idle? <==> |q.pushed| - k == q.Capacity())
    ensures Enabled(q, PopLook(k)) ==>
      (Step(q, PopLook(k)).consumer.Resting? <==> k == |q.popped|)
    ensures Enabled(q, PushLook(q.readCount)) ==>
      (Step(q, PushLook(q.readCount)).producer.Idle? <==> |Contents(q)| == q.Capacity())
    ensures Enabled(q, PopLook(q.writeCount)) ==>
      (Step(q, PopLook(q.writeCount)).consumer.Resting? <==> Contents(q) == [])
  {
    if Enabled(q, PushLook(k)) {
      FullIff(q, k);
    }
    if Enabled(q, PopLook(k)) {
      EmptyIff(q, k);
    }
    if q.producer.Begun? {
      FullIff(q, q.readCount);
    }
    if q.consumer.Looking? {
      EmptyIff(q, q.writeCount);
    }
  }

  lemma OneStep<T>(q: Queue<T>, a: Action<T>)
    requires Inv(q) && Enabled(q, a)
    ensures Inv(Step(q, a)) && Possible(q, [a]) && After(q, [a]) == Step(q, a)
  {
    StepInv(q, a);
    assert [a][1..] == [];
    hide Inv, Enabled, Step;
  }

  lemma TwoSteps<T>(q: Queue<T>, a: Action<T>, b: Action<T>, q1: Queue<T>)
    requires Inv(q) && Enabled(q, a) && q1 == Step(q, a) && Inv(q1) && Enabled(q1, b)
    ensures Inv(Step(q1, b)) && Possible(q, [a, b]) && After(q, [a, b]) == Step(q1, b)
  {
    StepInv(q, a);
    OneStep(q1, b);
    assert [a, b][1..] == [b];
    hide Inv, Enabled, Step;
  }

  lemma RoomSeen<T>(q: Queue<T>, x: T)
    requires Inv(q) && q.producer.Idle? && |q.pushed| < |q.popped| + |q.slots| - 1
    ensures Possible(q, [PushBegin(x), PushLook(|q.popped|)])
    ensures var q1 := After(q, [PushBegin(x), PushLook(|q.popped|)]);
      Inv(q1) && q1.producer.Cleared? && q1.producer.item == x && q1.pushed == q.pushed
  {
    var q1 := Step(q, PushBegin(x));
    OneStep(q, PushBegin(x));
    FullIff(q1, q1.readCount);
    TwoSteps(q, PushBegin(x), PushLook(|q.popped|), q1);
    hide Possible, After, SlotsOK, ProducerOK, ConsumerOK;
  }

  lemma ItemStored<T>(q: Queue<T>)
    requires Inv(q) && q.producer.Cleared?
    ensures Possible(q, [PushStore, PushCommit])
    ensures After(q, [PushStore, PushCommit]).pushed == q.pushed + [q.producer.item]
  {
    OneStep(q, PushStore);
    var q1 := Step(q, PushStore);
    assert q1.producer.Stored? && q1.producer.item == q.producer.item && q1.pushed == q.pushed;
    TwoSteps(q, PushStore, PushCommit, q1);
    hide Inv, Possible, After;
  }

  /** A push that finds room is done after four steps of the producer alone, and the item is in; a pop
      that finds an item is done after four of the consumer's, and the oldest item is out. */
  lemma PushGoesThrough<T>(q: Queue<T>, x: T)
    requires Inv(q) && q.producer.Idle? && |q.pushed| < |q.popped| + |q.slots| - 1
    ensures Possible(q, [PushBegin(x), PushLook(|q.popped|)])
    ensures var q1 := After(q, [PushBegin(x), PushLook(|q.popped|)]);
      && Possible(q1, [PushStore, PushCommit])
      && After(q1, [PushStore, PushCommit]).pushed == q.pushed + [x]
  {
    RoomSeen(q, x);
    hide Inv, Possible, After;
    ItemStored(After(q, [PushBegin(x), PushLook(|q.popped|)]));
  }

  lemma PopGoesThrough<T>(q: Queue<T>)
    requires Inv(q) && q.consumer.Resting? && |q.popped| < |q.pushed|
    ensures Possible(q, [PopBegin, PopLook(|q.pushed|)])
    ensures var q1 := After(q, [PopBegin, PopLook(|q.pushed|)]);
      && Possible(q1, [PopTake, PopCommit])
      && After(q1, [PopTake, PopCommit]).popped == q.popped + [q.pushed[|q.popped|]]
  {
    var q1 := Step(q, PopBegin);
    OneStep(q, PopBegin);
    EmptyIff(q1, q1.writeCount);
    TwoSteps(q, PopBegin, PopLook(|q.pushed|), q1);
    var q2 := Step(q1, PopLook(|q.pushed|));
    assert q2.consumer.Found? && q2.popped == q.popped && q2.pushed == q.pushed;
    OneStep(q2, PopTake);
    TwoSteps(q2, PopTake, PopCommit, Step(q2, PopTake));
    hide Inv;
  }
}

/** spsc_queue.hpp run by one thread at a time, over its buffer. */
module SpscQueues {
  import opened SpscProtocol

  class SpscQueue<T(0)> {
    const buffer: array<T>
    var writeIdx: nat
    var readIdx: nat
    ghost var items: seq<T>

    ghost predicate Valid()
      reads this, buffer
    {
      && buffer.Length > 0
      && writeIdx < buffer.Length && readIdx < buffer.Length
      && |items| < buffer.Length
      && writeIdx == Wrap(readIdx + |items|)
      && (forall i :: 0 <= i < |items| ==> items[i] == buffer[Wrap(readIdx + i)])
    }

    /** Wraps an index that is less than two laps. */
    function Wrap(k: nat): nat {
      if k < buffer.Length then k else k - buffer.Length
    }

    lemma NextSlot(k: nat)
      requires k < buffer.Length
      ensures (k + 1) % buffer.Length == Wrap(k + 1)
    {
      if k + 1 == buffer.Length {
        RemainderIs(k + 1, 1, 0, buffer.Length);
      } else {
        RemainderIs(k + 1, 0, k + 1, buffer.Length);
      }
    }

    constructor (capacity: nat)
      ensures Valid() && fresh(buffer) && items == [] && buffer.Length == capacity + 1
    {
      buffer := new T[capacity + 1];
      writeIdx, readIdx := 0, 0;
      items := [];
    }

    method Push(item: T) returns (ok: bool)
      requires Valid()
      modifies this`writeIdx, this`items, buffer
      ensures Valid()
      ensures ok == (|old(items)| < buffer.Length - 1)
      ensures items == if ok then old(items) + [item] else old(items)
    {
      NextSlot(writeIdx);
      var next := (writeIdx + 1) % buffer.Length;
      if next == readIdx {
        return false;
      }
      buffer[writeIdx] := item;
      writeIdx := next;
      items := items + [item];
      return true;
    }

    method Pop(out: T) returns (item: T, ok: bool)
      requires Valid()
      modifies this`readIdx, this`items
      ensures Valid()
      ensures ok == (old(items) != [])
      ensures ok ==> old(items) == [item] + items
      ensures !ok ==> items == old(items) && item == out
    {
      if readIdx == writeIdx {
        return out, false;
      }
      NextSlot(readIdx);
      item := buffer[readIdx];
      readIdx := (readIdx + 1) % buffer.Length;
      items := items[1..];
      ok := true;
    }
  }
}
