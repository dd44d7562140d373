/** The Python client's side: poll. */
module Client {
  import opened Wire
  import opened Framing
  import opened Messages

  /** What poll recovers: of a fill only the prefix, of a reject nothing. */
  datatype Got =
    | GotFill(maker: int, taker: int, price: int, qty: int)
    | GotBook(bestBid: int, bestAsk: int, numBids: int, numAsks: int,
              bidPrices: seq<int>, bidQtys: seq<int>, askPrices: seq<int>, askQtys: seq<int>)

  /** The fields of a book update, cut out of its numbers. */
  function BookFrom(v: seq<int>): Got
    requires |v| == 44
  {
    GotBook(v[0], v[1], v[2], v[3], v[4..14], v[14..24], v[24..34], v[34..44])
  }

  datatype Decoded = Message(got: Got) | Skipped | Raised

  /** One complete frame. A type the client does not know, or a payload too short for it, raises. */
  function Decode(f: Frame): Decoded {
    if f.kind == FILL then
      if |f.payload| < Size(FILL_PREFIX) then Raised else
      var v := Unpack(FILL_PREFIX, f.payload);
      Message(GotFill(v[0], v[1], v[2], v[3]))
    else if f.kind == BOOK_UPDATE then
      if |f.payload| < Size(BOOK_FORMAT) then Raised else
      Message(BookFrom(Unpack(BOOK_FORMAT, f.payload)))
    else if f.kind in {NEW_ORDER, CANCEL_ORDER, REJECT, HEARTBEAT} then Skipped
    else Raised
  }

  /** The messages of a sequence of frames up to the first that raises. */
  function DecodeAll(fs: seq<Frame>): seq<Got> {
    if fs == [] || Decode(fs[0]).Raised? then []
    else (if Decode(fs[0]).Message? then [Decode(fs[0]).got] else []) + DecodeAll(fs[1..])
  }

  predicate AllGood(fs: seq<Frame>) {
    forall i :: 0 <= i < |fs| ==> !Decode(fs[i]).Raised?
  }

  lemma {:induction false} DecodeAppend(fs: seq<Frame>, gs: seq<Frame>)
    requires AllGood(fs)
    ensures DecodeAll(fs + gs) == DecodeAll(fs) + DecodeAll(gs)
  {
    if fs == [] {
      assert fs + gs == gs;
    } else {
      assert (fs + gs)[1..] == fs[1..] + gs;
      DecodeAppend(fs[1..], gs);
    }
  }

  /** Larger than any frame: the client has no limit of its own. */
  function NoLimit(): nat {
    HEADER_SIZE + Pow256(4)
  }

  lemma NeverOversized(s: seq<Byte>)
    ensures !Parse(NoLimit(), s).oversized
  {
    ParseSound(NoLimit(), s);
    var p := Parse(NoLimit(), s);
    if p.oversized {
      ToFromBytes(p.rest[1..HEADER_SIZE]);
    }
  }

  datatype Received = Data(bytes: seq<Byte>) | WouldBlock | Closed | Failed

  /** What poll leaves: messages handed over, unparsed bytes, and whether it raised. */
  datatype Polled = Polled(messages: seq<Got>, rest: seq<Byte>, raised: bool)

  /** p with the messages ms before its own. */
  function Prior(ms: seq<Got>, p: Polled): Polled {
    p.(messages := ms + p.messages)
  }

  lemma PriorPrior(ms: seq<Got>, ns: seq<Got>, p: Polled)
    ensures Prior(ms, Prior(ns, p)) == Prior(ms + ns, p) && Prior([], p) == p
  {
    assert ms + (ns + p.messages) == ms + ns + p.messages;
    assert [] + p.messages == p.messages;
  }

  function GotOf(d: Decoded): seq<Got> {
    if d.Message? then [d.got] else []
  }

  /** Poll as a function of all unparsed bytes: a frame that raises is consumed, later ones are not. */
  function PollOf(s: seq<Byte>): Polled
    decreases |s|
  {
    if |s| < HEADER_SIZE || |s| < HEADER_SIZE + Announced(s) then Polled([], s, false) else
    var total := HEADER_SIZE + Announced(s);
    var d := Decode(Front(s));
    if d.Raised? then Polled([], s[total..], true) else Prior(GotOf(d), PollOf(s[total..]))
  }

  lemma {:induction false} PollIsParse(s: seq<Byte>)
    requires AllGood(Parse(NoLimit(), s).frames)
    ensures var p := Parse(NoLimit(), s); PollOf(s) == Polled(DecodeAll(p.frames), p.rest, false)
    decreases |s|
  {
    if |s| >= HEADER_SIZE {
      ToFromBytes(s[1..HEADER_SIZE]);
      if HEADER_SIZE + Announced(s) <= |s| {
        var total := HEADER_SIZE + Announced(s);
        var f, q := Front(s), Parse(NoLimit(), s[total..]);
        FrontParsed(NoLimit(), s);
        GoodParts([f], q.frames);
        assert ([f] + q.frames)[0] == f && ([f] + q.frames)[1..] == q.frames;
        assert !Decode([f][0]).Raised?;
        hide Parse, Announced, Front, Decode;
        PollIsParse(s[total..]);
      }
    }
  }

  class TcpClient {
    var recvBuffer: seq<Byte>

    constructor ()
      ensures recvBuffer == []
    {
      recvBuffer := [];
    }

    /** One poll. Whatever is complete in the buffer is decoded and taken out of it. */
    method Poll(r: Received) returns (messages: seq<Got>, raised: bool)
      modifies this
      ensures r.Closed? || r.Failed? || r == Data([]) ==> messages == [] && !raised && recvBuffer == old(recvBuffer)
      ensures r.WouldBlock? ==> Polled(messages, recvBuffer, raised) == PollOf(old(recvBuffer))
      ensures r.Data? && r.bytes != [] ==> Polled(messages, recvBuffer, raised) == PollOf(old(recvBuffer) + r.bytes)
    {
      messages, raised := [], false;
      match r {
        case Data(bytes) =>
          if bytes == [] {
            return;
          }
          recvBuffer := recvBuffer + bytes;
        case WouldBlock =>
        case _ =>
          return;
      }
      messages, raised := Drain();
    }

    /** The parsing loop of poll. */
    method Drain() returns (messages: seq<Got>, raised: bool)
      modifies this
      ensures Polled(messages, recvBuffer, raised) == PollOf(old(recvBuffer))
    {
      messages, raised := [], false;
      hide Decode, Prior;
      PriorPrior([], [], PollOf(recvBuffer));
      while |recvBuffer| >= HEADER_SIZE
        invariant Prior(messages, PollOf(recvBuffer)) == PollOf(old(recvBuffer))
        decreases |recvBuffer|
      {
        var total := HEADER_SIZE + FromBytes(recvBuffer[1..HEADER_SIZE]);
        if |recvBuffer| < total {
          break;
        }
        var f := Frame(recvBuffer[0], recvBuffer[HEADER_SIZE..total]);
        var d := Decode(f);
        ghost var s := recvBuffer;
        assert f == Front(s);
        recvBuffer := recvBuffer[total..];
        if d.Raised? {
          PriorNone(messages, recvBuffer, true);
          raised := true;
          return;
        }
        PriorPrior(messages, GotOf(d), PollOf(recvBuffer));
        messages := messages + GotOf(d);
      }
      PriorNone(messages, recvBuffer, false);
    }
  }

  lemma PriorNone(ms: seq<Got>, rest: seq<Byte>, raised: bool)
    ensures Prior(ms, Polled([], rest, raised)) == Polled(ms, rest, raised)
  {
    assert ms + [] == ms;
  }

  /** Polls with data, one after the other, none of which raises. */
  function PollAll(chunks: seq<seq<Byte>>): Polled {
    if chunks == [] then Polled([], [], false) else
    var before := PollAll(chunks[..|chunks| - 1]);
    if before.raised then before else
    var p := PollOf(before.rest + chunks[|chunks| - 1]);
    p.(messages := before.messages + p.messages)
  }

  /** However the bytes arrive, the polls recover the messages of the stream, as long as none of its
      frames raises. */
  lemma {:induction false} PollChunks(chunks: seq<seq<Byte>>)
    requires AllGood(Parse(NoLimit(), Joined(chunks)).frames)
    ensures var p := Parse(NoLimit(), Joined(chunks)); PollAll(chunks) == Polled(DecodeAll(p.frames), p.rest, false)
    decreases |chunks|
  {
    if chunks != [] {
      var init, last := chunks[..|chunks| - 1], chunks[|chunks| - 1];
      var p := Parse(NoLimit(), Joined(init));
      NeverOversized(Joined(init));
      ParseAppend(NoLimit(), Joined(init), last);
      var q := Parse(NoLimit(), p.rest + last);
      GoodParts(p.frames, q.frames);
      PollChunks(init);
      PollIsParse(p.rest + last);
      DecodeAppend(p.frames, q.frames);
    }
  }

  // ---------------------------------------------------------------- polls that raise

  /** Everything a sequence of frames hands over, whether or not some of them raise. */
  function AllGot(fs: seq<Frame>): seq<Got> {
    if fs == [] then [] else GotOf(Decode(fs[0])) + AllGot(fs[1..])
  }

  function Raisers(fs: seq<Frame>): nat {
    if fs == [] then 0 else (if Decode(fs[0]).Raised? then 1 else 0) + Raisers(fs[1..])
  }

  /** How many of the frames one poll takes: up to the first that raises, that one included. */
  function Stop(fs: seq<Frame>): (n: nat)
    ensures n <= |fs| && (fs != [] ==> n > 0)
  {
    if fs == [] then 0 else if Decode(fs[0]).Raised? then 1 else 1 + Stop(fs[1..])
  }

  lemma {:induction false} GotAppend(fs: seq<Frame>, gs: seq<Frame>)
    ensures AllGot(fs + gs) == AllGot(fs) + AllGot(gs) && Raisers(fs + gs) == Raisers(fs) + Raisers(gs)
  {
    hide Decode, GotOf;
    if fs == [] {
      assert fs + gs == gs;
    } else {
      assert (fs + gs)[1..] == fs[1..] + gs;
      GotAppend(fs[1..], gs);
    }
  }

  lemma GotCons(f: Frame, fs: seq<Frame>, n: nat)
    requires 0 < n <= |fs| + 1
    ensures var gs := [f] + fs;
      && gs[..n] == [f] + fs[..n - 1] && gs[n..] == fs[n - 1..] && gs[1..] == fs
      && AllGot(gs[..n]) == GotOf(Decode(f)) + AllGot(fs[..n - 1])
      && Raisers(gs[..n]) == (if Decode(f).Raised? then 1 else 0) + Raisers(fs[..n - 1])
  {
    assert ([f] + fs[..n - 1])[1..] == fs[..n - 1];
    assert ([f] + fs)[..n] == [f] + fs[..n - 1];
  }

  /** One poll, in terms of all the frames complete in its buffer. */
  lemma {:induction false} PollStops(s: seq<Byte>)
    ensures var p := Parse(NoLimit(), s); var n := Stop(p.frames);
      && PollOf(s) == Polled(AllGot(p.frames[..n]), Stream(p.frames[n..]) + p.rest, Raisers(p.frames[..n]) == 1)
      && Raisers(p.frames[..n]) <= 1 && (Raisers(p.frames[..n]) == 0 ==> n == |p.frames|)
    decreases |s|
  {
    NeverOversized(s);
    if FrontComplete(NoLimit(), s) {
      var f, tail := Front(s), s[HEADER_SIZE + Announced(s)..];
      var p := Parse(NoLimit(), tail);
      FrontParsed(NoLimit(), s);
      ParseSound(NoLimit(), tail);
      hide Parse, Announced, Front, Stream, FrameBytes, Sendable;
      GotCons(f, p.frames, 1);
      if !Decode(f).Raised? {
        PollStops(tail);
        GotCons(f, p.frames, 1 + Stop(p.frames));
      }
    } else {
      LastPoll(s);
    }
  }

  lemma LastPoll(s: seq<Byte>)
    requires !FrontComplete(NoLimit(), s) && !Parse(NoLimit(), s).oversized
    ensures PollOf(s) == Polled([], s, false) && Parse(NoLimit(), s) == Parsed([], s, false)
    ensures Stream([]) + s == s
  {
    if |s| >= HEADER_SIZE {
      ToFromBytes(s[1..HEADER_SIZE]);
    }
  }

  /** A series of polls, whether or not some raise: all that was handed over, the bytes left, how often
      a poll raised, and whether the last one did not. A poll without data adds an empty chunk. */
  datatype Polls = Polls(messages: seq<Got>, rest: seq<Byte>, raised: nat, clean: bool)

  function PollOn(c: Polls, chunk: seq<Byte>): Polls {
    var p := PollOf(c.rest + chunk);
    Polls(c.messages + p.messages, p.rest, c.raised + if p.raised then 1 else 0, !p.raised)
  }

  function PollEach(chunks: seq<seq<Byte>>): Polls {
    if chunks == [] then Polls([], [], 0, true)
    else PollOn(PollEach(chunks[..|chunks| - 1]), chunks[|chunks| - 1])
  }

  /** The polls so far have taken the first n frames of the stream s, each exactly once, and all of
      them if the last poll did not raise. */
  ghost predicate Taken(s: seq<Byte>, c: Polls, n: nat) {
    var p := Parse(NoLimit(), s);
    && n <= |p.frames|
    && c.messages == AllGot(p.frames[..n])
    && c.raised == Raisers(p.frames[..n])
    && c.rest == Stream(p.frames[n..]) + p.rest
    && (c.clean ==> n == |p.frames|)
  }

  lemma TakenMore(a: seq<Frame>, g: seq<Frame>, n: nat, m: nat)
    requires n <= |a| && m <= |a[n..] + g|
    ensures (a + g)[n..] == a[n..] + g && (a + g)[..n] == a[..n]
    ensures (a + g)[..n + m] == a[..n] + (a[n..] + g)[..m] && (a + g)[n + m..] == (a[n..] + g)[m..]
  {
    assert a + g == a[..n] + (a[n..] + g);
  }

  lemma SendableTail(fs: seq<Frame>, n: nat, limit: nat)
    requires AllSendable(fs, limit) && n <= |fs|
    ensures AllSendable(fs[n..], limit)
  {
  }

  /** The frames complete in the buffer when one more chunk arrives. */
  lemma BufferFrames(s: seq<Byte>, c: Polls, n: nat, chunk: seq<Byte>)
    requires Taken(s, c, n)
    ensures var p := Parse(NoLimit(), s); var q := Parse(NoLimit(), p.rest + chunk);
      && Parse(NoLimit(), c.rest + chunk) == Before(p.frames[n..], q)
      && Parse(NoLimit(), s + chunk) == Before(p.frames, q)
  {
    var limit, p := NoLimit(), Parse(NoLimit(), s);
    NeverOversized(s);
    ParseSound(limit, s);
    ParseAppend(limit, s, chunk);
    SendableTail(p.frames, n, limit);
    ParseStream(limit, p.frames[n..], p.rest + chunk);
    Associate(Stream(p.frames[n..]), p.rest, chunk);
  }

  /** One more poll takes the frames from the n-th up to the first that raises. */
  lemma PollTakes(s: seq<Byte>, c: Polls, n: nat, chunk: seq<Byte>)
    requires Taken(s, c, n)
    ensures exists m :: Taken(s + chunk, PollOn(c, chunk), m)
  {
    var p := Parse(NoLimit(), s);
    var q := Parse(NoLimit(), p.rest + chunk);
    var left := p.frames[n..] + q.frames;
    var m := Stop(left);
    BufferFrames(s, c, n, chunk);
    PollStops(c.rest + chunk);
    hide Parse, PollOf, Stream, AllGot, Raisers, Stop, NoLimit;
    TakenMore(p.frames, q.frames, n, m);
    GotAppend(p.frames[..n], left[..m]);
    assert Taken(s + chunk, PollOn(c, chunk), n + m);
  }

  /** However the bytes arrive and whatever they are, the polls take the frames of the stream one by
      one and in order; each that raises costs one poll, and after a poll that does not raise none is
      left. */
  lemma {:induction false} PollsTakePrefix(chunks: seq<seq<Byte>>)
    ensures exists n :: Taken(Joined(chunks), PollEach(chunks), n)
    decreases |chunks|
  {
    hide Taken, PollOn;
    if chunks == [] {
      NoneTaken();
      assert Taken(Joined(chunks), PollEach(chunks), 0);
    } else {
      var init, last := chunks[..|chunks| - 1], chunks[|chunks| - 1];
      PollsTakePrefix(init);
      var n :| Taken(Joined(init), PollEach(init), n);
      PollTakes(Joined(init), PollEach(init), n, last);
      assert Joined(chunks) == Joined(init) + last && PollEach(chunks) == PollOn(PollEach(init), last);
    }
  }

  lemma NoneTaken()
    ensures Taken([], Polls([], [], 0, true), 0)
  {
    assert Stream([]) + [] == [];
  }

  lemma GoodParts(fs: seq<Frame>, gs: seq<Frame>)
    requires AllGood(fs + gs)
    ensures AllGood(fs) && AllGood(gs)
  {
    forall i | 0 <= i < |fs|
      ensures !Decode(fs[i]).Raised?
    {
      assert fs[i] == (fs + gs)[i];
    }
    forall i | 0 <= i < |gs|
      ensures !Decode(gs[i]).Raised?
    {
      assert gs[i] == (fs + gs)[|fs| + i];
    }
  }

  /** What the client should recover of an engine message. */
  function Recovered(m: EngineMsg): seq<Got> {
    match m
    case FillMsg(a, b, p, q, _, _) => [GotFill(a, b, p, q)]
    case RejectMsg(_, _) => []
    case BookMsg(ns) => if |ns| == 44 then [BookFrom(ns)] else []   // no other number of them is sent
  }

  function RecoveredAll(ms: seq<EngineMsg>): seq<Got> {
    if ms == [] then [] else Recovered(ms[0]) + RecoveredAll(ms[1..])
  }

  /** A fill is read through its prefix; the fees behind it do not disturb it. */
  lemma DecodeEngine(m: EngineMsg)
    requires Representable(m)
    ensures Decode(EngineFrame(m)) == match m
      case FillMsg(a, b, p, q, _, _) => Message(GotFill(a, b, p, q))
      case RejectMsg(_, _) => Skipped
      case BookMsg(ns) => Message(BookFrom(ns))
  {
    var fs, vs := EngineFormat(m), EngineValues(m);
    UnpackPack(fs, vs, []);
    assert Pack(fs, vs) + [] == Pack(fs, vs);
    FormatSizes();
    if m.FillMsg? {
      UnpackPrefix(FILL_PREFIX, FILL_FEES, Pack(fs, vs));
    }
  }

  lemma GoodCons(fs: seq<Frame>)
    requires fs != [] && !Decode(fs[0]).Raised? && AllGood(fs[1..])
    ensures AllGood(fs)
  {
    forall i | 0 <= i < |fs|
      ensures !Decode(fs[i]).Raised?
    {
      if i > 0 {
        assert fs[i] == fs[1..][i - 1];
      }
    }
  }

  lemma {:induction false} DecodeEngineFrames(ms: seq<EngineMsg>)
    requires AllRepresentable(ms)
    ensures AllGood(EngineFrames(ms)) && DecodeAll(EngineFrames(ms)) == RecoveredAll(ms)
  {
    if ms != [] {
      var fs := EngineFrames(ms);
      assert Representable(ms[0]);
      DecodeEngine(ms[0]);
      DecodeEngineFrames(ms[1..]);
      assert fs[1..] == EngineFrames(ms[1..]) && fs[0] == EngineFrame(ms[0]);
      hide Decode, EngineFrames, EngineFrame, Representable;
      GoodCons(fs);
    }
  }

  /** Any engine messages, serialized and sent in any chunks, are recovered by poll in order. */
  lemma ServerToClient(ms: seq<EngineMsg>, chunks: seq<seq<Byte>>)
    requires AllRepresentable(ms)
    requires Joined(chunks) == Stream(EngineFrames(ms))
    ensures PollAll(chunks) == Polled(RecoveredAll(ms), [], false)
  {
    var fs := EngineFrames(ms);
    EngineSendable(ms);
    ParseStream(NoLimit(), fs, []);
    assert Stream(fs) + [] == Stream(fs) && fs + [] == fs;
    DecodeEngineFrames(ms);
    hide Stream, AllSendable, EngineFrames, DecodeAll;
    PollChunks(chunks);
  }

  lemma EngineSendable(ms: seq<EngineMsg>)
    requires AllRepresentable(ms)
    ensures AllSendable(EngineFrames(ms), NoLimit())
  {
    FormatSizes();
    hide Pack, Size;
    forall i | 0 <= i < |ms|
      ensures Sendable(EngineFrames(ms)[i], NoLimit())
    {
      assert Representable(ms[i]);
    }
  }

  /** What raises: a frame of the one type the engine knows and the client does not, for instance. It
      is consumed, and with it nothing that follows. */
  lemma UnknownTypeRaises(payload: seq<Byte>, tail: seq<Byte>)
    requires |payload| < Pow256(4)
    ensures PollOf(FrameBytes(Frame(MODIFY_ORDER, payload)) + tail) == Polled([], tail, true)
  {
    var f := Frame(MODIFY_ORDER, payload);
    AnnouncedFrame(f, tail);
  }
}
