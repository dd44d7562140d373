/** The messages of both directions and their packed layouts. */
module Messages {
  import opened Wire
  import opened Framing

  const NEW_ORDER: Byte := 1
  const CANCEL_ORDER: Byte := 2
  const FILL: Byte := 3
  const BOOK_UPDATE: Byte := 4
  const REJECT: Byte := 5
  const MODIFY_ORDER: Byte := 6
  const HEARTBEAT: Byte := 255

  const DEPTH: nat := 10

  const NEW_ORDER_FORMAT: Format := [U64, U8, U8, I64, I32, I32]
  const CANCEL_FORMAT: Format := [U64]
  const MODIFY_FORMAT: Format := [U64, I64, I32]
  const FILL_PREFIX: Format := [U64, U64, I64, I32]   // what the Python client knows of a fill
  const FILL_FEES: Format := [I64, I64]
  const REJECT_FORMAT: Format := [U64, U8]
  const BOOK_FORMAT: Format :=
    [I64, I64, I32, I32] + Repeat(I64, DEPTH) + Repeat(I32, DEPTH) + Repeat(I64, DEPTH) + Repeat(I32, DEPTH)

  const MAX_MSG_SIZE: nat := 269

  /** The sizes both ends agree on; the largest message is the book update. */
  lemma FormatSizes()
    ensures Size(HEADER) == HEADER_SIZE
    ensures Size(NEW_ORDER_FORMAT) == 26 && Size(CANCEL_FORMAT) == 8 && Size(MODIFY_FORMAT) == 20
    ensures Size(FILL_PREFIX) == 28 && Size(FILL_PREFIX + FILL_FEES) == 44 && Size(REJECT_FORMAT) == 9
    ensures Size(BOOK_FORMAT) == 264 && HEADER_SIZE + Size(BOOK_FORMAT) == MAX_MSG_SIZE
    ensures MAX_MSG_SIZE < Pow256(4)
  {
    var a, b := Repeat(I64, DEPTH), Repeat(I32, DEPTH);
    var h: Format := [I64, I64, I32, I32];
    SizeRepeat(I64, DEPTH);
    SizeRepeat(I32, DEPTH);
    SizeAppend(h, a);
    SizeAppend(h + a, b);
    SizeAppend(h + a + b, a);
    SizeAppend(h + a + b + a, b);
    SizeAppend(FILL_PREFIX, FILL_FEES);
    assert Pow256(4) == 256 * Pow256(3) && Pow256(3) == 256 * Pow256(2) && Pow256(2) == 256 * Pow256(1);
  }

  datatype RejectReason = InvalidParams | PoolExhausted | OrderNotFound | DuplicateId | InvalidModify

  /** The byte that stands for a reason. */
  function ReasonByte(r: RejectReason): int {
    match r
    case InvalidParams => 0
    case PoolExhausted => 1
    case OrderNotFound => 2
    case DuplicateId => 3
    case InvalidModify => 4
  }

  /** An order as it stands in the message: side and kind are raw bytes. */
  datatype ClientOrder = ClientOrder(id: int, side: int, kind: int, price: int, qty: int, display: int)

  function OrderFrom(vs: seq<int>): ClientOrder
    requires |vs| == 6
  {
    ClientOrder(vs[0], vs[1], vs[2], vs[3], vs[4], vs[5])
  }

  /** What the Python client can send. */
  datatype Outgoing = Order(order: ClientOrder) | Cancel(id: int)

  function OutgoingFormat(m: Outgoing): Format {
    if m.Order? then NEW_ORDER_FORMAT else CANCEL_FORMAT
  }

  function OutgoingValues(m: Outgoing): seq<int> {
    match m
    case Order(o) => [o.id, o.side, o.kind, o.price, o.qty, o.display]
    case Cancel(id) => [id]
  }

  /** Packing raises an error for a value its field cannot hold. */
  predicate Packable(m: Outgoing) {
    Fits(OutgoingFormat(m), OutgoingValues(m))
  }

  function OutgoingFrame(m: Outgoing): Frame
    requires Packable(m)
  {
    Frame(if m.Order? then NEW_ORDER else CANCEL_ORDER, Pack(OutgoingFormat(m), OutgoingValues(m)))
  }

  predicate AllPackable(ms: seq<Outgoing>) {
    forall i :: 0 <= i < |ms| ==> Packable(ms[i])
  }

  function OutgoingFrames(ms: seq<Outgoing>): seq<Frame>
    requires AllPackable(ms)
  {
    seq(|ms|, i requires 0 <= i < |ms| => OutgoingFrame(ms[i]))
  }

  /** What the engine's side sends. A book update is its 44 numbers in order. */
  datatype EngineMsg =
    | FillMsg(maker: int, taker: int, price: int, qty: int, makerFee: int, takerFee: int)
    | RejectMsg(id: int, reason: int)
    | BookMsg(numbers: seq<int>)

  function EngineKind(m: EngineMsg): Byte {
    if m.FillMsg? then FILL else if m.RejectMsg? then REJECT else BOOK_UPDATE
  }

  function EngineFormat(m: EngineMsg): Format {
    if m.FillMsg? then FILL_PREFIX + FILL_FEES else if m.RejectMsg? then REJECT_FORMAT else BOOK_FORMAT
  }

  function EngineValues(m: EngineMsg): seq<int> {
    match m
    case FillMsg(a, b, p, q, f, g) => [a, b, p, q, f, g]
    case RejectMsg(id, r) => [id, r]
    case BookMsg(ns) => ns
  }

  /** The values are those of the fixed-width fields of the C++ struct. */
  predicate Representable(m: EngineMsg) {
    Fits(EngineFormat(m), EngineValues(m))
  }

  function EngineFrame(m: EngineMsg): Frame
    requires Representable(m)
  {
    Frame(EngineKind(m), Pack(EngineFormat(m), EngineValues(m)))
  }

  predicate AllRepresentable(ms: seq<EngineMsg>) {
    forall i :: 0 <= i < |ms| ==> Representable(ms[i])
  }

  function EngineFrames(ms: seq<EngineMsg>): seq<Frame>
    requires AllRepresentable(ms)
  {
    seq(|ms|, i requires 0 <= i < |ms| => EngineFrame(ms[i]))
  }

  lemma FrameFits(m: EngineMsg)
    requires Representable(m)
    ensures |FrameBytes(EngineFrame(m))| <= MAX_MSG_SIZE
  {
    FormatSizes();
    hide Pack;
  }

  /** serialize: writes header and message at the front of the buffer, and nothing else. */
  method Serialize(m: EngineMsg, buffer: array<Byte>) returns (n: nat)
    requires Representable(m) && buffer.Length >= MAX_MSG_SIZE
    modifies buffer
    ensures n <= MAX_MSG_SIZE && buffer[..n] == FrameBytes(EngineFrame(m))
    ensures buffer[n..] == old(buffer[n..])
  {
    FrameFits(m);
    hide FrameBytes, EngineFrame, Representable;
    var bytes := FrameBytes(EngineFrame(m));
    n := |bytes|;
    Copy(bytes, buffer);
  }

  /** memcpy to the front of the buffer. */
  method Copy(bytes: seq<Byte>, buffer: array<Byte>)
    requires |bytes| <= buffer.Length
    modifies buffer
    ensures buffer[..|bytes|] == bytes && buffer[|bytes|..] == old(buffer[|bytes|..])
  {
    for i := 0 to |bytes|
      invariant forall k :: 0 <= k < i ==> buffer[k] == bytes[k]
      invariant forall k :: i <= k < buffer.Length ==> buffer[k] == old(buffer[k])
    {
      buffer[i] := bytes[i];
    }
  }
}
