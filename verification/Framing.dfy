/** Type-length-value framing as a function on streams: what the two incremental parsers compute,
    whatever the way the bytes were split into reads. */
module Framing {
  import opened Wire

  datatype Frame = Frame(kind: Byte, payload: seq<Byte>)

  /** The complete frames at the front of a stream, and what follows them. If that begins with the
      header of a frame larger than the limit, the stream is oversized. */
  datatype Parsed = Parsed(frames: seq<Frame>, rest: seq<Byte>, oversized: bool)

  const HEADER: Format := [U8, U32]
  const HEADER_SIZE: nat := 5

  /** The payload length a header announces. */
  function Announced(s: seq<Byte>): nat
    requires |s| >= HEADER_SIZE
  {
    FromBytes(s[1..HEADER_SIZE])
  }

  function Parse(limit: nat, s: seq<Byte>): Parsed
    decreases |s|
  {
    if |s| < HEADER_SIZE then Parsed([], s, false) else
    var total := HEADER_SIZE + Announced(s);
    if total > limit then Parsed([], s, true)
    else if total > |s| then Parsed([], s, false)
    else
      var p := Parse(limit, s[total..]);
      p.(frames := [Frame(s[0], s[HEADER_SIZE..total])] + p.frames)
  }

  // ---------------------------------------------------------------- what a parse means

  predicate Sendable(f: Frame, limit: nat) {
    |f.payload| < Pow256(4) && HEADER_SIZE + |f.payload| <= limit
  }

  predicate AllSendable(fs: seq<Frame>, limit: nat) {
    forall i :: 0 <= i < |fs| ==> Sendable(fs[i], limit)
  }

  function FrameBytes(f: Frame): (bs: seq<Byte>)
    ensures |bs| == HEADER_SIZE + |f.payload|
  {
    [f.kind] + ToBytes(|f.payload|, 4) + f.payload
  }

  function Stream(fs: seq<Frame>): seq<Byte> {
    if fs == [] then [] else FrameBytes(fs[0]) + Stream(fs[1..])
  }

  /** The header written by packing type and length. */
  lemma HeaderIsPacked(f: Frame)
    requires |f.payload| < Pow256(4)
    ensures HEADER[0].Holds(f.kind) && HEADER[1].Holds(|f.payload|)
    ensures Fits(HEADER, [f.kind, |f.payload|])
    ensures FrameBytes(f) == Pack(HEADER, [f.kind, |f.payload|]) + f.payload
  {
    var vs: seq<int> := [f.kind, |f.payload|];
    assert Pow256(1) == 256 * Pow256(0);
    assert HEADER[1..] == [U32] && vs[1..] == [|f.payload|];
    assert Pack([U32], vs[1..]) == ToBytes(|f.payload|, 4) + Pack([], []);
    assert PackField(U8, f.kind) == ToBytes(f.kind, 1);
    assert ToBytes(f.kind, 1) == [f.kind] + ToBytes(f.kind / 256, 0);
  }

  lemma AnnouncedFrame(f: Frame, tail: seq<Byte>)
    requires |f.payload| < Pow256(4)
    ensures var s := FrameBytes(f) + tail;
      Announced(s) == |f.payload| && s[0] == f.kind
      && s[HEADER_SIZE..HEADER_SIZE + |f.payload|] == f.payload && s[HEADER_SIZE + |f.payload|..] == tail
  {
    var s := FrameBytes(f) + tail;
    FromToBytes(|f.payload|, 4);
    assert s[1..HEADER_SIZE] == ToBytes(|f.payload|, 4);
  }

  /** p with the frames fs before its own. */
  function Before(fs: seq<Frame>, p: Parsed): Parsed {
    p.(frames := fs + p.frames)
  }

  lemma BeforeBefore(fs: seq<Frame>, gs: seq<Frame>, p: Parsed)
    ensures Before(fs, Before(gs, p)) == Before(fs + gs, p) && Before([], p) == p
  {
    assert fs + (gs + p.frames) == fs + gs + p.frames;
    assert [] + p.frames == p.frames;
  }

  lemma ParseFrame(limit: nat, f: Frame, tail: seq<Byte>)
    requires Sendable(f, limit)
    ensures Parse(limit, FrameBytes(f) + tail) == Before([f], Parse(limit, tail))
  {
    AnnouncedFrame(f, tail);
    hide FrameBytes, Announced;
  }

  /** Frames sent are the frames parsed, whatever follows. */
  lemma {:induction false} ParseStream(limit: nat, fs: seq<Frame>, tail: seq<Byte>)
    requires AllSendable(fs, limit)
    ensures Parse(limit, Stream(fs) + tail) == Before(fs, Parse(limit, tail))
  {
    hide Parse, Before, FrameBytes, Sendable;
    if fs == [] {
      assert Stream(fs) + tail == tail;
      BeforeBefore([], [], Parse(limit, tail));
    } else {
      var rest := Stream(fs[1..]) + tail;
      assert Stream(fs) + tail == FrameBytes(fs[0]) + rest;
      ParseFrame(limit, fs[0], rest);
      ParseStream(limit, fs[1..], tail);
      BeforeBefore([fs[0]], fs[1..], Parse(limit, tail));
      assert fs == [fs[0]] + fs[1..];
    }
  }

  /** The rest of a parse: no frame is complete there, and no oversized header unless reported. */
  ghost predicate Stuck(limit: nat, p: Parsed) {
    if p.oversized then |p.rest| >= HEADER_SIZE && HEADER_SIZE + Announced(p.rest) > limit
    else |p.rest| < HEADER_SIZE || |p.rest| < HEADER_SIZE + Announced(p.rest) <= limit
  }

  predicate FrontComplete(limit: nat, s: seq<Byte>) {
    |s| >= HEADER_SIZE && HEADER_SIZE + Announced(s) <= limit && HEADER_SIZE + Announced(s) <= |s|
  }

  function Front(s: seq<Byte>): Frame
    requires |s| >= HEADER_SIZE && HEADER_SIZE + Announced(s) <= |s|
  {
    Frame(s[0], s[HEADER_SIZE..HEADER_SIZE + Announced(s)])
  }

  lemma FrontBytes(limit: nat, s: seq<Byte>)
    requires FrontComplete(limit, s)
    ensures Sendable(Front(s), limit) && FrameBytes(Front(s)) == s[..HEADER_SIZE + Announced(s)]
  {
    var total := HEADER_SIZE + Announced(s);
    ToFromBytes(s[1..HEADER_SIZE]);
    assert s[..total] == [s[0]] + s[1..HEADER_SIZE] + s[HEADER_SIZE..total];
  }

  /** p takes s apart completely: frames, and a rest in which there is nothing to parse. */
  ghost predicate Sound(limit: nat, s: seq<Byte>, p: Parsed) {
    AllSendable(p.frames, limit) && s == Stream(p.frames) + p.rest && Stuck(limit, p)
  }

  lemma SoundFrame(limit: nat, f: Frame, tail: seq<Byte>, p: Parsed)
    requires Sendable(f, limit) && Sound(limit, tail, p)
    ensures Sound(limit, FrameBytes(f) + tail, Before([f], p))
  {
    hide FrameBytes, Stuck, Sendable;
    assert ([f] + p.frames)[1..] == p.frames;
    assert Stream([f] + p.frames) == FrameBytes(f) + Stream(p.frames);
    assert FrameBytes(f) + Stream(p.frames) + p.rest == FrameBytes(f) + (Stream(p.frames) + p.rest);
    Associates(limit, f, p);
  }

  lemma Associates(limit: nat, f: Frame, p: Parsed)
    requires Stuck(limit, p)
    ensures Stuck(limit, Before([f], p))
  {
  }

  lemma FrontParsed(limit: nat, s: seq<Byte>)
    requires FrontComplete(limit, s)
    ensures var tail := s[HEADER_SIZE + Announced(s)..];
      Parse(limit, s) == Before([Front(s)], Parse(limit, tail)) && s == FrameBytes(Front(s)) + tail
          && Sendable(Front(s), limit)
  {
    FrontBytes(limit, s);
    hide FrameBytes, Announced;
  }

  /** Conversely a stream is the frames parsed from it followed by a rest with nothing to parse. */
  lemma {:induction false} ParseSound(limit: nat, s: seq<Byte>)
    ensures Sound(limit, s, Parse(limit, s))
    decreases |s|
  {
    if FrontComplete(limit, s) {
      var f, tail := Front(s), s[HEADER_SIZE + Announced(s)..];
      FrontParsed(limit, s);
      hide Parse, Announced, FrameBytes, Sendable, Front, Sound, Before;
      ParseSound(limit, tail);
      SoundFrame(limit, f, tail, Parse(limit, tail));
    } else {
      assert s == Stream([]) + s;
    }
  }

  /** A stream is oversized exactly if an oversized header stands at a frame boundary. */
  lemma OversizedIff(limit: nat, s: seq<Byte>)
    ensures Parse(limit, s).oversized <==>
      exists fs, tail :: AllSendable(fs, limit) && s == Stream(fs) + tail && Stuck(limit, Parsed(fs, tail, true))
  {
    var p := Parse(limit, s);
    ParseSound(limit, s);
    if p.oversized {
      assert Stuck(limit, Parsed(p.frames, p.rest, true));
    }
    forall fs, tail | AllSendable(fs, limit) && s == Stream(fs) + tail && Stuck(limit, Parsed(fs, tail, true))
      ensures p.oversized
    {
      ParseStream(limit, fs, tail);
    }
  }

  // ---------------------------------------------------------------- chunking

  /** Parsing more bytes continues where the parse of the first ones stopped. */
  lemma ParseAppend(limit: nat, a: seq<Byte>, b: seq<Byte>)
    ensures var p, r := Parse(limit, a), Parse(limit, a + b);
      && (p.oversized ==> r.oversized && r.frames == p.frames)
      && (!p.oversized ==>
           var q := Parse(limit, p.rest + b);
           r == Before(p.frames, q))
  {
    var p := Parse(limit, a);
    ParseSound(limit, a);
    hide Parse, Before, FrameBytes, Sendable, Announced;
    ParseStream(limit, p.frames, p.rest + b);
    Associate(Stream(p.frames), p.rest, b);
    if p.oversized {
      StillOversized(limit, p.rest, b, p.frames);
    }
  }

  lemma Associate<T>(a: seq<T>, b: seq<T>, c: seq<T>)
    ensures a + b + c == a + (b + c)
  {
  }

  lemma StillOversized(limit: nat, rest: seq<Byte>, b: seq<Byte>, fs: seq<Frame>)
    requires |rest| >= HEADER_SIZE && HEADER_SIZE + Announced(rest) > limit
    ensures Before(fs, Parse(limit, rest + b)) == Parsed(fs, rest + b, true)
  {
    assert (rest + b)[1..HEADER_SIZE] == rest[1..HEADER_SIZE];
    StuckParsed(limit, rest + b, fs);
  }

  /** Where there is no complete frame in front, the parse ends. */
  lemma StuckParsed(limit: nat, s: seq<Byte>, fs: seq<Frame>)
    requires !FrontComplete(limit, s)
    ensures Before(fs, Parse(limit, s)) == Parsed(fs, s, |s| >= HEADER_SIZE && HEADER_SIZE + Announced(s) > limit)
  {
    assert fs + [] == fs;
  }

  function Joined(chunks: seq<seq<Byte>>): seq<Byte> {
    if chunks == [] then [] else Joined(chunks[..|chunks| - 1]) + chunks[|chunks| - 1]
  }

  /** A reader between reads: frames so far, unparsed bytes, and whether it gave up. */
  function Fed(limit: nat, c: Parsed, chunk: seq<Byte>): Parsed {
    if c.oversized then c else
    var p := Parse(limit, c.rest + chunk);
    Parsed(c.frames + p.frames, p.rest, p.oversized)
  }

  function FedAll(limit: nat, chunks: seq<seq<Byte>>): Parsed {
    if chunks == [] then Parsed([], [], false)
    else Fed(limit, FedAll(limit, chunks[..|chunks| - 1]), chunks[|chunks| - 1])
  }

  /** However a stream is split into reads, the reader sees the same frames and gives up, or not, all
      the same; and if it does not, it holds the same bytes, fewer than one frame of the limit. */
  lemma {:induction false} ChunkingIndependent(limit: nat, chunks: seq<seq<Byte>>)
    ensures var c, p := FedAll(limit, chunks), Parse(limit, Joined(chunks));
      && c.frames == p.frames && c.oversized == p.oversized
      && (!c.oversized ==> c.rest == p.rest && (limit >= HEADER_SIZE ==> |c.rest| < limit))
    decreases |chunks|
  {
    ParseSound(limit, Joined(chunks));
    if chunks != [] {
      var init, last := chunks[..|chunks| - 1], chunks[|chunks| - 1];
      ChunkingIndependent(limit, init);
      ParseAppend(limit, Joined(init), last);
    }
  }
}
