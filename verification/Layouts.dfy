/** The messages byte by byte, as they stand on the wire. */
module Layouts {
  import opened Wire
  import opened Framing
  import opened Messages

  /** The k-th byte of a number is its k-th digit to the base 256, the lowest first. */
  lemma {:induction false} DigitAt(v: nat, n: nat, k: nat)
    requires k < n
    ensures ToBytes(v, n)[k] == v / Pow256(k) % 256
  {
    if k > 0 {
      DigitAt(v / 256, n - 1, k - 1);
      Quotients(v, Pow256(k - 1), Pow256(k));
    }
  }

  lemma Quotients(v: nat, m: nat, m': nat)
    requires m > 0 && m' == 256 * m
    ensures v / 256 / m == v / m'
  {
    var q, r := v / 256 / m, v / 256 % m;
    assert v / 256 == q * m + r;
    assert v == 256 * (v / 256) + v % 256;
    assert v == q * m' + (256 * r + v % 256);
    assert 0 <= 256 * r + v % 256 < m';
    QuotientIs(v, q, 256 * r + v % 256, m');
  }

  lemma QuotientIs(x: nat, a: nat, b: nat, n: nat)
    requires n > 0 && b < n && x == a * n + b
    ensures x / n == a
  {
    var c, d := x / n, x % n;
    assert x == c * n + d;
    if c < a {
      Laps(c, a, n);
    } else if a < c {
      Laps(a, c, n);
    }
  }

  lemma Laps(c: nat, a: nat, n: nat)
    requires c < a
    ensures c * n + n <= a * n
  {
    assert a * n - c * n == (a - c) * n;
    assert (a - c) * n == (a - c - 1) * n + n;
  }

  /** Four and eight bytes, two's complement, lowest byte first. */
  function Bytes4(v: int): seq<Byte>
    requires -0x8000_0000 <= v < 0x1_0000_0000
  {
    ToBytes(if v < 0 then v + 0x1_0000_0000 else v, 4)
  }

  function Bytes8(v: int): seq<Byte>
    requires -0x8000_0000_0000_0000 <= v < 0x1_0000_0000_0000_0000
  {
    ToBytes(if v < 0 then v + 0x1_0000_0000_0000_0000 else v, 8)
  }

  lemma Powers()
    ensures Pow256(1) == 256 && Pow256(4) == 0x1_0000_0000 && Pow256(8) == 0x1_0000_0000_0000_0000
  {
    assert Pow256(1) == 256 * Pow256(0);
    assert Pow256(4) == 256 * Pow256(3) && Pow256(3) == 256 * Pow256(2) && Pow256(2) == 256 * Pow256(1);
    assert Pow256(8) == 256 * Pow256(7) && Pow256(7) == 256 * Pow256(6);
    assert Pow256(6) == 256 * Pow256(5) && Pow256(5) == 256 * Pow256(4);
  }

  lemma FieldBytes(f: Field, v: int)
    requires f.Holds(v)
    ensures f.U8? ==> 0 <= v < 256 && PackField(f, v) == [v]
    ensures f.I32? ==> -0x8000_0000 <= v < 0x8000_0000 && PackField(f, v) == Bytes4(v)
    ensures f.U64? ==> 0 <= v < 0x1_0000_0000_0000_0000 && PackField(f, v) == Bytes8(v)
    ensures f.I64? ==> -0x8000_0000_0000_0000 <= v < 0x8000_0000_0000_0000 && PackField(f, v) == Bytes8(v)
  {
    Powers();
    if f.U8? {
      assert ToBytes(v, 1) == [v % 256] + ToBytes(v / 256, 0);
    }
  }

  /** A format and its values, the first field taken off. */
  lemma PackFirst(fs: Format, vs: seq<int>)
    requires Fits(fs, vs) && fs != []
    ensures |fs| == |vs| && fs[0].Holds(vs[0]) && Fits(fs[1..], vs[1..])
    ensures Pack(fs, vs) == PackField(fs[0], vs[0]) + Pack(fs[1..], vs[1..])
  {
  }

  lemma LengthBytes(n: nat)
    requires n < 256
    ensures ToBytes(n, 4) == [n, 0, 0, 0]
  {
    assert ToBytes(n, 4) == [n % 256] + ToBytes(0, 3);
    assert ToBytes(0, 3) == [0] + ToBytes(0, 2) && ToBytes(0, 2) == [0] + ToBytes(0, 1);
    assert ToBytes(0, 1) == [0] + ToBytes(0, 0);
  }

  /** A cancel: type 2, eight bytes, the id. */
  lemma CancelBytes(id: int)
    requires Packable(Cancel(id))
    ensures 0 <= id < 0x1_0000_0000_0000_0000
    ensures FrameBytes(OutgoingFrame(Cancel(id))) == [2] + [8, 0, 0, 0] + Bytes8(id)
  {
    PackFirst(CANCEL_FORMAT, [id]);
    FieldBytes(U64, id);
    LengthBytes(8);
    FormatSizes();
  }

  /** The range of each field of a new order. */
  predicate InRange(o: ClientOrder) {
    0 <= o.id < 0x1_0000_0000_0000_0000 && 0 <= o.side < 256 && 0 <= o.kind < 256 && InSigned(o)
  }

  predicate InSigned(o: ClientOrder) {
    && -0x8000_0000_0000_0000 <= o.price < 0x8000_0000_0000_0000
    && -0x8000_0000 <= o.qty < 0x8000_0000 && -0x8000_0000 <= o.display < 0x8000_0000
  }

  lemma OrderHolds(o: ClientOrder)
    requires Packable(Messages.Order(o))
    ensures U64.Holds(o.id) && U8.Holds(o.side) && U8.Holds(o.kind)
    ensures I64.Holds(o.price) && I32.Holds(o.qty) && I32.Holds(o.display)
  {
    hide Field.Holds;
    var fs: Format, vs := NEW_ORDER_FORMAT, OutgoingValues(Messages.Order(o));
    assert fs[0].Holds(vs[0]) && fs[1].Holds(vs[1]) && fs[2].Holds(vs[2]);
    assert fs[3].Holds(vs[3]) && fs[4].Holds(vs[4]) && fs[5].Holds(vs[5]);
  }

  /** One field in front of others. */
  lemma PackCons(f: Field, v: int, fs: Format, vs: seq<int>)
    requires f.Holds(v) && Fits(fs, vs)
    ensures Fits([f] + fs, [v] + vs) && Pack([f] + fs, [v] + vs) == PackField(f, v) + Pack(fs, vs)
  {
    var gs, ws := [f] + fs, [v] + vs;
    assert gs[1..] == fs && ws[1..] == vs;
    hide Field.Holds, PackField;
    FitsCons(gs, ws);
  }

  /** The last three fields. */
  lemma OrderTail(o: ClientOrder)
    requires I64.Holds(o.price) && I32.Holds(o.qty) && I32.Holds(o.display)
    ensures InSigned(o) && Fits([I64, I32, I32], [o.price, o.qty, o.display])
    ensures Pack([I64, I32, I32], [o.price, o.qty, o.display]) == Bytes8(o.price) + (Bytes4(o.qty) + Bytes4(o.display))
  {
    FieldBytes(I64, o.price);
    FieldBytes(I32, o.qty);
    FieldBytes(I32, o.display);
    hide Field.Holds, PackField, Bytes4, Bytes8;
    PackCons(I32, o.display, [], []);
    PackCons(I32, o.qty, [I32], [o.display]);
    PackCons(I64, o.price, [I32, I32], [o.qty, o.display]);
    assert [I32] + [] == [I32] && [I32] + [I32] == [I32, I32] && [I64] + [I32, I32] == [I64, I32, I32];
    assert [o.display] + [] == [o.display] && [o.qty] + [o.display] == [o.qty, o.display];
    assert [o.price] + [o.qty, o.display] == [o.price, o.qty, o.display];
    assert Bytes4(o.display) + [] == Bytes4(o.display);
  }

  lemma OrderFields(o: ClientOrder)
    requires Packable(Messages.Order(o))
    ensures InRange(o)
    ensures Pack(NEW_ORDER_FORMAT, [o.id, o.side, o.kind, o.price, o.qty, o.display])
         == Bytes8(o.id) + ([o.side] + ([o.kind] + (Bytes8(o.price) + (Bytes4(o.qty) + Bytes4(o.display)))))
  {
    OrderHolds(o);
    OrderTail(o);
    FieldBytes(U64, o.id);
    FieldBytes(U8, o.side);
    FieldBytes(U8, o.kind);
    hide Field.Holds, PackField, Bytes4, Bytes8, Pack, Fits;
    var fs: Format, vs: seq<int> := [I64, I32, I32], [o.price, o.qty, o.display];
    PackCons(U8, o.kind, fs, vs);
    PackCons(U8, o.side, [U8] + fs, [o.kind] + vs);
    PackCons(U64, o.id, [U8] + ([U8] + fs), [o.side] + ([o.kind] + vs));
    assert [U64] + ([U8] + ([U8] + fs)) == NEW_ORDER_FORMAT;
    assert [o.id] + ([o.side] + ([o.kind] + vs)) == [o.id, o.side, o.kind, o.price, o.qty, o.display];
  }

  /** A new order: type 1, twenty-six bytes, then id, side, type, price, quantity and display quantity. */
  lemma OrderBytes(o: ClientOrder)
    requires Packable(Messages.Order(o))
    ensures InRange(o)
    ensures FrameBytes(OutgoingFrame(Messages.Order(o)))
         == [1] + [26, 0, 0, 0]
          + (Bytes8(o.id) + ([o.side] + ([o.kind] + (Bytes8(o.price) + (Bytes4(o.qty) + Bytes4(o.display))))))
  {
    OrderFields(o);
    LengthBytes(26);
    FormatSizes();
    hide Pack, Bytes4, Bytes8, Fits;
  }

  // ---------------------------------------------------------------- what the engine's side sends

  /** The type and the length of each: a fill is 44 bytes long, a reject 9, a book update 264. */
  lemma EngineHeaders(m: EngineMsg)
    requires Representable(m)
    ensures FrameBytes(EngineFrame(m))[..5] == match m
      case FillMsg(_, _, _, _, _, _) => [3, 44, 0, 0, 0]
      case RejectMsg(_, _) => [5, 9, 0, 0, 0]
      case BookMsg(_) => [4, 8, 1, 0, 0]
  {
    FormatSizes();
    LengthBytes(44);
    LengthBytes(9);
    BookLength();
    hide Pack, ToBytes;
    assert FrameBytes(EngineFrame(m))[..5] == [EngineKind(m)] + ToBytes(Size(EngineFormat(m)), 4);
  }

  lemma BookLength()
    ensures ToBytes(264, 4) == [8, 1, 0, 0]
  {
    assert ToBytes(264, 4) == [8] + ToBytes(1, 3);
    assert ToBytes(1, 3) == [1] + ToBytes(0, 2) && ToBytes(0, 2) == [0] + ToBytes(0, 1);
    assert ToBytes(0, 1) == [0] + ToBytes(0, 0);
  }

  /** A reject: the id and one byte for the reason. */
  lemma RejectBytes(id: int, reason: int)
    requires Representable(RejectMsg(id, reason))
    ensures 0 <= id < 0x1_0000_0000_0000_0000 && 0 <= reason < 256
    ensures FrameBytes(EngineFrame(RejectMsg(id, reason)))[5..] == Bytes8(id) + [reason]
  {
    var m := RejectMsg(id, reason);
    assert REJECT_FORMAT[0].Holds(EngineValues(m)[0]) && REJECT_FORMAT[1].Holds(EngineValues(m)[1]);
    FieldBytes(U64, id);
    FieldBytes(U8, reason);
    hide Field.Holds, PackField, Bytes8;
    PackCons(U8, reason, [], []);
    PackCons(U64, id, [U8], [reason]);
    assert [U8] + [] == [U8] && [U64] + [U8] == REJECT_FORMAT && [reason] + [] == [reason];
    assert [id] + [reason] == [id, reason];
  }

  /** Field i stands behind the fields before it. */
  lemma {:induction false} PackAt(fs: Format, vs: seq<int>, i: nat)
    requires Fits(fs, vs) && i < |fs|
    ensures fs[i].Holds(vs[i]) && Size(fs[..i]) + fs[i].Size() <= Size(fs)
    ensures Pack(fs, vs)[Size(fs[..i])..Size(fs[..i]) + fs[i].Size()] == PackField(fs[i], vs[i])
  {
    hide Field.Holds, PackField, Fits, Pack, Field.Size;
    PackFirst(fs, vs);
    if i > 0 {
      var a, b := PackField(fs[0], vs[0]), Pack(fs[1..], vs[1..]);
      PackAt(fs[1..], vs[1..], i - 1);
      assert fs[..i][1..] == fs[1..][..i - 1];
      var k, n := Size(fs[1..][..i - 1]), fs[i].Size();
      assert (a + b)[|a| + k..|a| + k + n] == b[k..k + n];
    }
  }

  lemma SizeNext(fs: Format, i: nat)
    requires i < |fs|
    ensures Size(fs[..i + 1]) == Size(fs[..i]) + fs[i].Size()
  {
    assert fs[..i + 1] == fs[..i] + [fs[i]];
    SizeAppend(fs[..i], [fs[i]]);
    assert [fs[i]][1..] == [];
  }

  /** Where the i-th number of a book update stands, and how many bytes it takes: the two best prices,
      the two counts, ten bid prices, ten bid quantities, ten ask prices, ten ask quantities. */
  function BookOffset(i: nat): nat {
    if i < 2 then 8 * i
    else if i < 4 then 16 + 4 * (i - 2)
    else if i < 14 then 24 + 8 * (i - 4)
    else if i < 24 then 104 + 4 * (i - 14)
    else if i < 34 then 144 + 8 * (i - 24)
    else 224 + 4 * (i - 34)
  }

  function IsPrice(i: nat): bool {
    i < 2 || 4 <= i < 14 || 24 <= i < 34
  }

  lemma BookField(i: nat)
    requires i < 44
    ensures |BOOK_FORMAT| == 44 && BOOK_FORMAT[i] == if IsPrice(i) then I64 else I32
  {
  }

  lemma {:induction false} BookOffsetIs(i: nat)
    requires i < 44
    ensures |BOOK_FORMAT| == 44 && Size(BOOK_FORMAT[..i]) == BookOffset(i)
  {
    BookField(i);
    if i > 0 {
      BookField(i - 1);
      BookOffsetIs(i - 1);
      SizeNext(BOOK_FORMAT, i - 1);
    }
  }

  /** The payload of a book update holds each of its numbers at its place. */
  lemma BookBytes(ns: seq<int>, i: nat)
    requires Representable(BookMsg(ns)) && i < 44
    ensures |ns| == 44 && |EngineFrame(BookMsg(ns)).payload| == 264
    ensures var n := if IsPrice(i) then 8 else 4; BookOffset(i) + n <= 264
    ensures IsPrice(i) ==>
      && -0x8000_0000_0000_0000 <= ns[i] < 0x8000_0000_0000_0000
      && EngineFrame(BookMsg(ns)).payload[BookOffset(i)..BookOffset(i) + 8] == Bytes8(ns[i])
    ensures !IsPrice(i) ==>
      && -0x8000_0000 <= ns[i] < 0x8000_0000
      && EngineFrame(BookMsg(ns)).payload[BookOffset(i)..BookOffset(i) + 4] == Bytes4(ns[i])
  {
    FormatSizes();
    BookField(i);
    BookOffsetIs(i);
    PackAt(BOOK_FORMAT, ns, i);
    FieldBytes(BOOK_FORMAT[i], ns[i]);
    hide Pack, PackField, Bytes4, Bytes8;
  }
}
