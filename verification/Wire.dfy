/** Bytes on the wire: little-endian fixed-width fields, packed without padding, as struct.pack and a
    memcpy of a packed struct on a little-endian host lay them out. */
module Wire {

  type Byte = b: int | 0 <= b < 256

  // ---------------------------------------------------------------- little-endian numbers

  function Pow256(n: nat): (r: nat)
    ensures r > 0
  {
    if n == 0 then 1 else 256 * Pow256(n - 1)
  }

  /** The n low-order bytes of v, least significant first. */
  function ToBytes(v: nat, n: nat): (bs: seq<Byte>)
    ensures |bs| == n
  {
    if n == 0 then [] else [v % 256] + ToBytes(v / 256, n - 1)
  }

  function FromBytes(bs: seq<Byte>): nat {
    if bs == [] then 0 else bs[0] + 256 * FromBytes(bs[1..])
  }

  lemma {:induction false} FromToBytes(v: nat, n: nat)
    requires v < Pow256(n)
    ensures FromBytes(ToBytes(v, n)) == v
  {
    if n > 0 {
      FromToBytes(v / 256, n - 1);
      assert ToBytes(v, n)[1..] == ToBytes(v / 256, n - 1);
    }
  }

  lemma {:induction false} ToFromBytes(bs: seq<Byte>)
    ensures FromBytes(bs) < Pow256(|bs|) && ToBytes(FromBytes(bs), |bs|) == bs
  {
    if bs != [] {
      ToFromBytes(bs[1..]);
      var v := FromBytes(bs);
      assert v % 256 == bs[0] && v / 256 == FromBytes(bs[1..]);
    }
  }

  // ---------------------------------------------------------------- fields

  datatype Field = U8 | U32 | I32 | U64 | I64 {
    function Size(): nat {
      match this
      case U8 => 1
      case U32 | I32 => 4
      case U64 | I64 => 8
    }

    predicate Signed() {
      I32? || I64?
    }

    /** The values the field can hold: two's complement if signed. */
    predicate Holds(v: int) {
      var m: int := Pow256(Size());
      if Signed() then -m <= 2 * v < m else 0 <= v < m
    }
  }

  function PackField(f: Field, v: int): (bs: seq<Byte>)
    requires f.Holds(v)
    ensures |bs| == f.Size()
  {
    ToBytes(if v < 0 then v + Pow256(f.Size()) else v, f.Size())
  }

  function UnpackField(f: Field, bs: seq<Byte>): int
    requires |bs| == f.Size()
  {
    var v, m := FromBytes(bs), Pow256(f.Size());
    if f.Signed() && m <= 2 * v then v - m else v
  }

  lemma UnpackPackField(f: Field, v: int)
    requires f.Holds(v)
    ensures UnpackField(f, PackField(f, v)) == v
  {
    FromToBytes(if v < 0 then v + Pow256(f.Size()) else v, f.Size());
  }

  lemma PackUnpackField(f: Field, bs: seq<Byte>)
    requires |bs| == f.Size()
    ensures f.Holds(UnpackField(f, bs)) && PackField(f, UnpackField(f, bs)) == bs
  {
    ToFromBytes(bs);
  }

  // ---------------------------------------------------------------- formats

  type Format = seq<Field>

  function Size(fs: Format): nat {
    if fs == [] then 0 else fs[0].Size() + Size(fs[1..])
  }

  predicate Fits(fs: Format, vs: seq<int>) {
    |fs| == |vs| && forall i :: 0 <= i < |fs| ==> fs[i].Holds(vs[i])
  }

  function Pack(fs: Format, vs: seq<int>): (bs: seq<Byte>)
    requires Fits(fs, vs)
    ensures |bs| == Size(fs)
  {
    if fs == [] then [] else PackField(fs[0], vs[0]) + Pack(fs[1..], vs[1..])
  }

  /** Reads the fields from the front of the bytes; more may follow. */
  function Unpack(fs: Format, bs: seq<Byte>): (vs: seq<int>)
    requires Size(fs) <= |bs|
    ensures |vs| == |fs|
  {
    if fs == [] then [] else
    [UnpackField(fs[0], bs[..fs[0].Size()])] + Unpack(fs[1..], bs[fs[0].Size()..])
  }

  /** What was packed is read back, whatever follows it. */
  lemma {:induction false} UnpackPack(fs: Format, vs: seq<int>, rest: seq<Byte>)
    requires Fits(fs, vs)
    ensures Unpack(fs, Pack(fs, vs) + rest) == vs
  {
    if fs != [] {
      UnpackPackField(fs[0], vs[0]);
      UnpackPack(fs[1..], vs[1..], rest);
      hide FromBytes, ToBytes, Field.Holds, UnpackField, PackField, Pow256;
      var head, tail := PackField(fs[0], vs[0]), Pack(fs[1..], vs[1..]) + rest;
      assert Pack(fs, vs) + rest == head + tail;
      Halves(head, tail);
      assert vs == [vs[0]] + vs[1..];
    }
  }

  lemma Halves<T>(a: seq<T>, b: seq<T>)
    ensures (a + b)[..|a|] == a && (a + b)[|a|..] == b
  {
  }

  /** Every byte string of the right size is a packed tuple: nothing read is lost or out of range. */
  lemma {:induction false} PackUnpack(fs: Format, bs: seq<Byte>)
    requires |bs| == Size(fs)
    ensures Fits(fs, Unpack(fs, bs)) && Pack(fs, Unpack(fs, bs)) == bs
  {
    if fs != [] {
      var k, vs := fs[0].Size(), Unpack(fs, bs);
      PackUnpackField(fs[0], bs[..k]);
      PackUnpack(fs[1..], bs[k..]);
      hide FromBytes, ToBytes, Field.Holds, UnpackField, PackField, Pow256;
      assert vs[0] == UnpackField(fs[0], bs[..k]) && vs[1..] == Unpack(fs[1..], bs[k..]);
      FitsCons(fs, vs);
      assert bs == bs[..k] + bs[k..];
    }
  }

  lemma FitsCons(fs: Format, vs: seq<int>)
    requires |fs| == |vs| > 0 && fs[0].Holds(vs[0]) && Fits(fs[1..], vs[1..])
    ensures Fits(fs, vs)
  {
    forall i | 0 <= i < |fs|
      ensures fs[i].Holds(vs[i])
    {
      if i > 0 {
        assert fs[i] == fs[1..][i - 1] && vs[i] == vs[1..][i - 1];
      }
    }
  }

  lemma {:induction false} SizeAppend(fs: Format, gs: Format)
    ensures Size(fs + gs) == Size(fs) + Size(gs)
  {
    if fs == [] {
      assert fs + gs == gs;
    } else {
      SizeAppend(fs[1..], gs);
      assert (fs + gs)[1..] == fs[1..] + gs;
    }
  }

  /** A format that begins like another reads the same leading values: a client may know only a
      prefix of a message. */
  lemma {:induction false} UnpackPrefix(fs: Format, gs: Format, bs: seq<Byte>)
    requires Size(fs + gs) <= |bs|
    ensures Size(fs) <= |bs| && Unpack(fs, bs) == Unpack(fs + gs, bs)[..|fs|]
  {
    SizeAppend(fs, gs);
    if fs != [] {
      assert (fs + gs)[1..] == fs[1..] + gs;
      SizeAppend(fs[1..], gs);
      UnpackPrefix(fs[1..], gs, bs[fs[0].Size()..]);
    }
  }

  function Repeat(f: Field, n: nat): Format {
    seq(n, _ => f)
  }

  lemma {:induction false} SizeRepeat(f: Field, n: nat)
    ensures Size(Repeat(f, n)) == f.Size() * n
  {
    if n > 0 {
      SizeRepeat(f, n - 1);
      assert Repeat(f, n)[1..] == Repeat(f, n - 1);
    }
  }
}
