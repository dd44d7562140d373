/** The server's side: handle_client_read over its fixed buffer, and process_message. */
module Server {
  import opened Wire
  import opened Framing
  import opened Messages

  const BUFFER_SIZE: nat := 4096

  class ClientConn {
    const buffer: array<Byte>
    var offset: nat

    ghost predicate Valid()
      reads this, buffer
    {
      buffer.Length == BUFFER_SIZE && offset < MAX_MSG_SIZE
    }

    /** Bytes received and not yet parsed. */
    ghost function Pending(): seq<Byte>
      reads this, buffer
      requires offset <= buffer.Length
    {
      buffer[..offset]
    }

    constructor ()
      ensures Valid() && fresh(buffer) && Pending() == []
    {
      buffer := new Byte[BUFFER_SIZE](_ => 0);
      offset := 0;
    }

    /** What recv put into the free part of the buffer. */
    method Receive(data: seq<Byte>)
      requires offset + |data| <= buffer.Length
      modifies this, buffer
      ensures offset == old(offset) + |data| && offset <= buffer.Length
      ensures Pending() == old(Pending()) + data
    {
      for i := 0 to |data|
        invariant offset == old(offset)
        invariant buffer[..offset + i] == old(Pending()) + data[..i]
      {
        buffer[offset + i] := data[i];
        assert data[..i + 1] == data[..i] + [data[i]];
        assert buffer[..offset + (i + 1)] == buffer[..offset + i] + [data[i]];
      }
      assert data[..|data|] == data;
      offset := offset + |data|;
    }

    /** Moves the unprocessed bytes to the front of the buffer. */
    method Compact(pos: nat)
      requires pos <= offset <= buffer.Length
      modifies this, buffer
      ensures offset == old(offset) - pos && offset <= buffer.Length
      ensures Pending() == old(buffer[pos..offset])
    {
      var remaining := offset - pos;
      for i := 0 to remaining
        invariant offset == old(offset)
        invariant buffer[..i] == old(buffer[pos..pos + i])
        invariant forall k :: i <= k < buffer.Length ==> buffer[k] == old(buffer[k])
      {
        buffer[i] := buffer[pos + i];
        assert buffer[..i + 1] == buffer[..i] + [buffer[i]];
        assert old(buffer[pos..pos + (i + 1)]) == old(buffer[pos..pos + i]) + [old(buffer[pos + i])];
      }
      offset := remaining;
    }

    /** The parsing loop: hands out complete frames until there is none, or an oversized header. */
    method Extract() returns (frames: seq<Frame>, pos: nat, oversized: bool)
      requires offset <= buffer.Length
      ensures pos <= offset
      ensures Parse(MAX_MSG_SIZE, Pending()) == Parsed(frames, buffer[pos..offset], oversized)
    {
      hide Parse, Before, AllSendable, FrameBytes, Sendable, Front;
      frames, pos, oversized := [], 0, false;
      ghost var whole := Parse(MAX_MSG_SIZE, Pending());
      assert buffer[pos..offset] == Pending();
      BeforeBefore([], [], whole);
      while pos + HEADER_SIZE <= offset
        invariant pos <= offset
        invariant whole == Before(frames, Parse(MAX_MSG_SIZE, buffer[pos..offset]))
        decreases offset - pos
      {
        ghost var s := buffer[pos..offset];
        AtOffset(buffer[..], pos, offset);
        var total := HEADER_SIZE + FromBytes(buffer[pos + 1..pos + HEADER_SIZE]);
        if total > MAX_MSG_SIZE {
          StuckParsed(MAX_MSG_SIZE, s, frames);
          oversized := true;
          return;
        }
        if pos + total > offset {
          break;
        }
        var f := Frame(buffer[pos], buffer[pos + HEADER_SIZE..pos + total]);
        FrontParsed(MAX_MSG_SIZE, s);
        hide Announced, FrontComplete;
        BeforeBefore(frames, [f], Parse(MAX_MSG_SIZE, s[total..]));
        frames := frames + [f];
        pos := pos + total;
      }
      StuckParsed(MAX_MSG_SIZE, buffer[pos..offset], frames);
    }

    /** One read event. An empty read or an oversized message drops the client; otherwise the frames
        completed by the new bytes are handed out and the rest, less than a message, is kept, so that
        there is always room for the next read. */
    method HandleRead(data: seq<Byte>) returns (frames: seq<Frame>, dropped: bool)
      requires Valid() && |data| <= buffer.Length - offset
      modifies this, buffer
      ensures data == [] ==> dropped && frames == []
      ensures data != [] ==>
        var p := Parse(MAX_MSG_SIZE, old(Pending()) + data);
        && frames == p.frames && dropped == p.oversized
        && (!dropped ==> Valid() && Pending() == p.rest && offset < buffer.Length)
    {
      if data == [] {
        return [], true;
      }
      Receive(data);
      ParseSound(MAX_MSG_SIZE, Pending());
      var pos;
      frames, pos, dropped := Extract();
      if !dropped && pos > 0 {
        Compact(pos);
      }
    }

    /** Reads k more bytes of the stream. */
    method ReadSome(stream: seq<Byte>, n: nat, k: nat, before: seq<Frame>) returns (frames: seq<Frame>, dropped: bool)
      requires Valid() && 0 < k <= buffer.Length - offset && n + k <= |stream|
      requires Parse(MAX_MSG_SIZE, stream[..n]) == Parsed(before, Pending(), false)
      modifies this, buffer
      ensures var p := Parse(MAX_MSG_SIZE, stream[..n + k]);
        && frames == p.frames && dropped == p.oversized
        && (!dropped ==> Valid() && Pending() == p.rest)
    {
      var data := stream[n..n + k];
      assert stream[..n] + data == stream[..n + k];
      ParseAppend(MAX_MSG_SIZE, stream[..n], data);
      hide Parse;
      var more;
      more, dropped := HandleRead(data);
      frames := before + more;
    }

    /** One read that would like this many bytes: it gets no more than there are and there is room for. */
    method ReadWanted(stream: seq<Byte>, n: nat, want: nat, before: seq<Frame>)
      returns (frames: seq<Frame>, dropped: bool, n': nat)
      requires Valid() && n <= |stream| && Parse(MAX_MSG_SIZE, stream[..n]) == Parsed(before, Pending(), false)
      modifies this, buffer
      ensures 3828 <= old(buffer.Length - offset) <= 4096
      ensures n' == n + Least(Least(want, old(buffer.Length - offset)), |stream| - n) && n' <= |stream|
      ensures !dropped ==> Valid() && Parse(MAX_MSG_SIZE, stream[..n']) == Parsed(frames, Pending(), false)
      ensures dropped ==>
        var p := Parse(MAX_MSG_SIZE, stream[..n']); frames == p.frames && p.oversized
    {
      hide Parse;
      var k := want;
      if k > buffer.Length - offset {
        k := buffer.Length - offset;
      }
      if k > |stream| - n {
        k := |stream| - n;
      }
      frames, dropped, n' := before, false, n + k;
      if k > 0 {
        frames, dropped := ReadSome(stream, n, k, before);
      }
    }

    /** A whole connection. Each read takes some of the bytes that have arrived, at most as many as
        there is room for; wants says how many it would like. The frames handed out are those of the
        bytes read, and the client is dropped exactly if they are oversized. There is always room for
        3828 bytes: as long as the client is not dropped, reads that want no more get what they want, or
        all there is. */
    method ReadAll(stream: seq<Byte>, wants: seq<nat>) returns (frames: seq<Frame>, dropped: bool, n: nat)
      requires Valid() && Pending() == []
      modifies this, buffer
      ensures n <= |stream|
      ensures var p := Parse(MAX_MSG_SIZE, stream[..n]);
        && frames == p.frames && dropped == p.oversized
        && (!dropped ==> Valid() && Pending() == p.rest)
      ensures n <= Wanted(wants, 4096)
      ensures !dropped ==> n == |stream| || n >= Wanted(wants, 3828)
    {
      frames, dropped, n := [], false, 0;
      assert stream[..0] == [] && wants[..0] == [] && wants[..|wants|] == wants;
      assert Parse(MAX_MSG_SIZE, stream[..n]) == Parsed(frames, Pending(), false);
      assert Served(n, |stream|, wants, 0);
      hide Parse, Served;
      for i := 0 to |wants|
        invariant n <= |stream| && !dropped && Valid()
        invariant Parse(MAX_MSG_SIZE, stream[..n]) == Parsed(frames, Pending(), false)
        invariant Served(n, |stream|, wants, i)
      {
        ghost var was, room := n, buffer.Length - offset;
        frames, dropped, n := ReadWanted(stream, n, wants[i], frames);
        ServedMore(was, |stream|, wants, i, room, n - was);
        if dropped {
          ServedWithin(n, |stream|, wants, i + 1);
          return;
        }
      }
      ServedWithin(n, |stream|, wants, |wants|);
    }
  }

  /** After i of the reads, n of the bytes that have arrived are taken. */
  ghost predicate Served(n: nat, arrived: nat, wants: seq<nat>, i: nat)
    requires i <= |wants|
  {
    n <= Wanted(wants[..i], 4096) && (n == arrived || n >= Wanted(wants[..i], 3828))
  }

  lemma ServedMore(n: nat, arrived: nat, wants: seq<nat>, i: nat, room: nat, k: nat)
    requires i < |wants| && n <= arrived && Served(n, arrived, wants, i) && 3828 <= room <= 4096
    requires k == Least(Least(wants[i], room), arrived - n)
    ensures Served(n + k, arrived, wants, i + 1)
  {
    WantedNext(wants, i, 3828);
    WantedNext(wants, i, 4096);
  }

  function Least(x: nat, y: nat): nat {
    if x < y then x else y
  }

  lemma ServedWithin(n: nat, arrived: nat, wants: seq<nat>, i: nat)
    requires i <= |wants| && Served(n, arrived, wants, i)
    ensures n <= Wanted(wants, 4096)
    ensures i == |wants| ==> n == arrived || n >= Wanted(wants, 3828)
  {
    WantedGrows(wants, i);
    assert wants[..|wants|] == wants;
  }

  /** What these reads would like in all, if none may have more than cap. */
  function Wanted(wants: seq<nat>, cap: nat): nat {
    if wants == [] then 0 else
    var w := wants[|wants| - 1];
    Wanted(wants[..|wants| - 1], cap) + if w < cap then w else cap
  }

  lemma WantedNext(wants: seq<nat>, i: nat, cap: nat)
    requires i < |wants|
    ensures Wanted(wants[..i + 1], cap) == Wanted(wants[..i], cap) + if wants[i] < cap then wants[i] else cap
  {
    assert wants[..i + 1][..i] == wants[..i];
  }

  lemma {:induction false} WantedGrows(wants: seq<nat>, i: nat)
    requires i <= |wants|
    ensures Wanted(wants[..i], 4096) <= Wanted(wants, 4096)
    decreases |wants| - i
  {
    if i < |wants| {
      WantedNext(wants, i, 4096);
      WantedGrows(wants, i + 1);
    } else {
      assert wants[..i] == wants;
    }
  }

  /** What the bytes w between pos and offset say, read in place. */
  lemma AtOffset(w: seq<Byte>, pos: nat, offset: nat)
    requires pos + HEADER_SIZE <= offset <= |w|
    ensures var s := w[pos..offset];
      && w[pos + 1..pos + HEADER_SIZE] == s[1..HEADER_SIZE]
      && (var total := HEADER_SIZE + Announced(s);
          pos + total <= offset ==>
            s[total..] == w[pos + total..offset] && Front(s) == Frame(w[pos], w[pos + HEADER_SIZE..pos + total]))
  {
    var s := w[pos..offset];
    SliceOfSlice(w, pos, offset, 1, HEADER_SIZE);
    var total := HEADER_SIZE + Announced(s);
    if pos + total <= offset {
      SliceOfSlice(w, pos, offset, total, offset - pos);
      SliceOfSlice(w, pos, offset, HEADER_SIZE, total);
      assert s[total..] == s[total..offset - pos];
    }
  }

  lemma SliceOfSlice<T>(w: seq<T>, a: nat, b: nat, c: nat, d: nat)
    requires a <= b <= |w| && c <= d <= b - a
    ensures w[a..b][c..d] == w[a + c..a + d]
  {
    forall k | 0 <= k < d - c
      ensures w[a..b][c..d][k] == w[a + c..a + d][k]
    {
      assert w[a..b][c..d][k] == w[a..b][c + k] == w[a + (c + k)];
    }
  }

  // ---------------------------------------------------------------- dispatch

  /** What the server makes of a frame. */
  datatype Request =
    | Submit(order: ClientOrder)
    | Withdraw(id: int)
    | Change(id: int, price: int, qty: int)
    | Refuse(id: int, reason: RejectReason)
    | Ignore

  /** process_message. known is what the engine answers when asked for the ids it holds. */
  function Dispatch(f: Frame, known: set<int>): Request {
    if f.kind == NEW_ORDER then
      if |f.payload| < Size(NEW_ORDER_FORMAT) then Refuse(0, InvalidParams) else
      var o := OrderFrom(Unpack(NEW_ORDER_FORMAT, f.payload));
      if o.qty <= 0 then Refuse(o.id, InvalidParams)
      else if o.kind == 0 && o.price <= 0 then Refuse(o.id, InvalidParams)
      else if o.id in known then Refuse(o.id, DuplicateId)
      else Submit(o)
    else if f.kind == CANCEL_ORDER then
      if |f.payload| < Size(CANCEL_FORMAT) then Refuse(0, InvalidParams) else
      Withdraw(Unpack(CANCEL_FORMAT, f.payload)[0])
    else if f.kind == MODIFY_ORDER then
      if |f.payload| < Size(MODIFY_FORMAT) then Refuse(0, InvalidParams) else
      var v := Unpack(MODIFY_FORMAT, f.payload);
      if v[2] <= 0 || v[1] <= 0 then Refuse(v[0], InvalidParams) else Change(v[0], v[1], v[2])
    else Ignore
  }

  /** What the server should make of a message of the Python client. */
  function Meant(m: Outgoing, known: set<int>): Request {
    match m
    case Order(o) =>
      if o.qty <= 0 || (o.kind == 0 && o.price <= 0) then Refuse(o.id, InvalidParams)
      else if o.id in known then Refuse(o.id, DuplicateId)
      else Submit(o)
    case Cancel(id) => Withdraw(id)
  }

  /** Field by field, what the client packed is what the server decodes. */
  lemma DispatchMeant(m: Outgoing, known: set<int>)
    requires Packable(m)
    ensures Dispatch(OutgoingFrame(m), known) == Meant(m, known)
  {
    var fs, vs := OutgoingFormat(m), OutgoingValues(m);
    UnpackPack(fs, vs, []);
    assert Pack(fs, vs) + [] == Pack(fs, vs);
    FormatSizes();
  }

  /** A new order is handed on unless its quantity is not positive, it is a limit order without a positive
      price, or its id is known; and then it is refused by its id, with the reason. */
  lemma DispatchOrder(o: ClientOrder, known: set<int>)
    requires Packable(Order(o))
    ensures Dispatch(OutgoingFrame(Order(o)), known)
         == if o.qty <= 0 || (o.kind == 0 && o.price <= 0) then Refuse(o.id, InvalidParams)
            else if o.id in known then Refuse(o.id, DuplicateId)
            else Submit(o)
  {
    DispatchMeant(Order(o), known);
  }

  /** A modify, which the Python client never sends, whatever follows its fields. */
  lemma DispatchModify(id: int, price: int, qty: int, more: seq<Byte>, known: set<int>)
    requires Fits(MODIFY_FORMAT, [id, price, qty])
    ensures Dispatch(Frame(6, Pack(MODIFY_FORMAT, [id, price, qty]) + more), known)
         == if qty <= 0 || price <= 0 then Refuse(id, InvalidParams) else Change(id, price, qty)
  {
    UnpackPack(MODIFY_FORMAT, [id, price, qty], more);
  }

  /** Payloads that are too short, and types the server does not know. */
  lemma DispatchOthers(f: Frame, known: set<int>)
    ensures (f.kind == 1 && |f.payload| < 26) || (f.kind == 2 && |f.payload| < 8) || (f.kind == 6 && |f.payload| < 20)
      ==> Dispatch(f, known) == Refuse(0, InvalidParams)
    ensures f.kind != 1 && f.kind != 2 && f.kind != 6 ==> Dispatch(f, known) == Ignore
  {
    FormatSizes();
  }

  /** Frames that fit, sent in any chunks, all arrive, and nothing else does. */
  lemma FramesArrive(limit: nat, fs: seq<Frame>, chunks: seq<seq<Byte>>)
    requires AllSendable(fs, limit) && Joined(chunks) == Stream(fs)
    ensures FedAll(limit, chunks) == Parsed(fs, [], false)
  {
    ParseStream(limit, fs, []);
    assert Stream(fs) + [] == Stream(fs) && fs + [] == fs;
    hide Stream, AllSendable;
    ChunkingIndependent(limit, chunks);
  }

  lemma OutgoingSendable(ms: seq<Outgoing>)
    requires AllPackable(ms)
    ensures AllSendable(OutgoingFrames(ms), MAX_MSG_SIZE)
  {
    FormatSizes();
    hide Pack, Size, Pow256;
    forall i | 0 <= i < |ms|
      ensures Sendable(OutgoingFrames(ms)[i], MAX_MSG_SIZE)
    {
      assert Packable(ms[i]);
    }
  }

  /** Any messages of the Python client, sent in any chunks, reach the server as they were meant, in
      order, and the connection is kept. */
  lemma ClientToServer(ms: seq<Outgoing>, chunks: seq<seq<Byte>>)
    requires AllPackable(ms) && Joined(chunks) == Stream(OutgoingFrames(ms))
    ensures var c := FedAll(MAX_MSG_SIZE, chunks);
      && !c.oversized && c.rest == [] && |c.frames| == |ms|
      && forall i, known :: 0 <= i < |ms| ==> Dispatch(c.frames[i], known) == Meant(ms[i], known)
  {
    var fs := OutgoingFrames(ms);
    OutgoingSendable(ms);
    FramesArrive(MAX_MSG_SIZE, fs, chunks);
    hide Dispatch, Meant, Stream, Packable;
    forall i, known | 0 <= i < |ms|
      ensures Dispatch(fs[i], known) == Meant(ms[i], known)
    {
      DispatchMeant(ms[i], known);
    }
  }
}
