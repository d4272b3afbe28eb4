/*
 * Little-endian fixed-width encodings, as the model files store the
 * engine's `uint32_t`, `int8_t`, `uint8_t` and `int16_t` values (the
 * engine writes its in-memory words, and every supported target is
 * little-endian).
 */
module Bytes {
  import opened Utility

  type Byte = b: int | 0 <= b < 0x100

  function Pow256(n: nat): (r: nat)
    ensures r >= 1
  {
    if n == 0 then 1 else 0x100 * Pow256(n - 1)
  }

  /** The n-byte little-endian encoding of the low n bytes of x. */
  function EncodeUnsigned(x: nat, n: nat): (r: seq<Byte>)
    ensures |r| == n
  {
    if n == 0 then [] else [x % 0x100] + EncodeUnsigned(x / 0x100, n - 1)
  }

  /** The unsigned value of a little-endian byte string. */
  function DecodeUnsigned(bs: seq<Byte>): (r: nat)
    ensures r < Pow256(|bs|)
  {
    if bs == [] then 0 else bs[0] + 0x100 * DecodeUnsigned(bs[1..])
  }

  lemma {:induction false} DecodeEncodeUnsigned(x: nat, n: nat)
    requires x < Pow256(n)
    ensures DecodeUnsigned(EncodeUnsigned(x, n)) == x
  {
    if n > 0 {
      DecodeEncodeUnsigned(x / 0x100, n - 1);
      assert EncodeUnsigned(x, n)[1..] == EncodeUnsigned(x / 0x100, n - 1);
    }
  }

  lemma {:induction false} EncodeDecodeUnsigned(bs: seq<Byte>)
    ensures EncodeUnsigned(DecodeUnsigned(bs), |bs|) == bs
  {
    if bs != [] {
      EncodeDecodeUnsigned(bs[1..]);
      var d := DecodeUnsigned(bs);
      assert d % 0x100 == bs[0] && d / 0x100 == DecodeUnsigned(bs[1..]);
    }
  }

  /** Half the range of n bytes: signed n-byte values lie in [-SignedBound(n), SignedBound(n)). */
  function SignedBound(n: nat): int
  {
    Pow256(n) / 2
  }

  /** Two's complement encoding of a signed value in n bytes. */
  function EncodeSigned(v: int, n: nat): (r: seq<Byte>)
    requires n > 0 && -SignedBound(n) <= v < SignedBound(n)
    ensures |r| == n
  {
    EncodeUnsigned(if v < 0 then v + Pow256(n) else v, n)
  }

  /** The signed value of a two's complement little-endian byte string. */
  function DecodeSigned(bs: seq<Byte>): (r: int)
    requires |bs| > 0
    ensures -SignedBound(|bs|) <= r < SignedBound(|bs|)
  {
    var u := DecodeUnsigned(bs);
    Pow256Even(|bs|);
    if u >= Pow256(|bs|) / 2 then u - Pow256(|bs|) else u
  }

  lemma Pow256Even(n: nat)
    requires n > 0
    ensures Pow256(n) % 2 == 0
  {
  }

  lemma DecodeEncodeSigned(v: int, n: nat)
    requires n > 0 && -SignedBound(n) <= v < SignedBound(n)
    ensures DecodeSigned(EncodeSigned(v, n)) == v
  {
    Pow256Even(n);
    DecodeEncodeUnsigned(if v < 0 then v + Pow256(n) else v, n);
  }

  lemma Pow256Small()
    ensures Pow256(1) == 0x100 && Pow256(2) == 0x1_0000 && Pow256(4) == 0x1_0000_0000
  {
    assert Pow256(1) == 0x100;
    assert Pow256(2) == 0x1_0000;
    assert Pow256(3) == 0x100_0000;
  }

  function U32(x: nat): (r: seq<Byte>)
    requires IsUint32(x)
    ensures |r| == 4
  {
    EncodeUnsigned(x, 4)
  }

  function U8(x: nat): (r: seq<Byte>)
    requires IsUint8(x)
    ensures |r| == 1
  {
    EncodeUnsigned(x, 1)
  }

  function I8(v: int): (r: seq<Byte>)
    requires IsInt8(v)
    ensures |r| == 1
  {
    Pow256Small();
    EncodeSigned(v, 1)
  }

  function I16(v: int): (r: seq<Byte>)
    requires IsInt16(v)
    ensures |r| == 2
  {
    Pow256Small();
    EncodeSigned(v, 2)
  }

  lemma U32RoundTrip(x: nat)
    requires IsUint32(x)
    ensures DecodeUnsigned(U32(x)) == x
  {
    Pow256Small();
    DecodeEncodeUnsigned(x, 4);
  }

  lemma U8RoundTrip(x: nat)
    requires IsUint8(x)
    ensures DecodeUnsigned(U8(x)) == x
  {
    Pow256Small();
    DecodeEncodeUnsigned(x, 1);
  }

  lemma I8RoundTrip(v: int)
    requires IsInt8(v)
    ensures DecodeSigned(I8(v)) == v
  {
    Pow256Small();
    DecodeEncodeSigned(v, 1);
  }

  lemma I16RoundTrip(v: int)
    requires IsInt16(v)
    ensures DecodeSigned(I16(v)) == v
  {
    Pow256Small();
    DecodeEncodeSigned(v, 2);
  }

  /** The decoded value of a single byte read as `int8_t`. */
  lemma DecodeSignedByte(bs: seq<Byte>)
    requires |bs| == 1
    ensures IsInt8(DecodeSigned(bs))
  {
    Pow256Small();
  }

  /** The decoded value of two bytes read as `int16_t`. */
  lemma DecodeSignedShort(bs: seq<Byte>)
    requires |bs| == 2
    ensures IsInt16(DecodeSigned(bs))
  {
    Pow256Small();
  }

  predicate AllInt16(vs: seq<int>) { forall i :: 0 <= i < |vs| ==> IsInt16(vs[i]) }
  predicate AllInt8(vs: seq<int>) { forall i :: 0 <= i < |vs| ==> IsInt8(vs[i]) }

  /** An `int16_t` buffer written as one block: two bytes per value. */
  function EncodeInt16s(vs: seq<int>): (r: seq<Byte>)
    requires AllInt16(vs)
    ensures |r| == 2 * |vs|
  {
    if vs == [] then [] else I16(vs[0]) + EncodeInt16s(vs[1..])
  }

  /** An `int8_t` buffer written as one block: one byte per value. */
  function EncodeInt8s(vs: seq<int>): (r: seq<Byte>)
    requires AllInt8(vs)
    ensures |r| == |vs|
  {
    if vs == [] then [] else I8(vs[0]) + EncodeInt8s(vs[1..])
  }

  /** `count` `int16_t` values read from the front of bs. */
  function DecodeInt16s(bs: seq<Byte>, count: nat): (r: seq<int>)
    requires |bs| >= 2 * count
    ensures |r| == count && AllInt16(r)
  {
    if count == 0 then []
    else
      DecodeSignedShort(bs[..2]);
      [DecodeSigned(bs[..2])] + DecodeInt16s(bs[2..], count - 1)
  }

  /** `count` `int8_t` values read from the front of bs. */
  function DecodeInt8s(bs: seq<Byte>, count: nat): (r: seq<int>)
    requires |bs| >= count
    ensures |r| == count && AllInt8(r)
  {
    if count == 0 then []
    else
      DecodeSignedByte(bs[..1]);
      [DecodeSigned(bs[..1])] + DecodeInt8s(bs[1..], count - 1)
  }

  lemma {:induction false} Int16sRoundTrip(vs: seq<int>, rest: seq<Byte>)
    requires AllInt16(vs)
    ensures DecodeInt16s(EncodeInt16s(vs) + rest, |vs|) == vs
  {
    if vs != [] {
      var tail := EncodeInt16s(vs[1..]) + rest;
      assert EncodeInt16s(vs) + rest == I16(vs[0]) + tail;
      DecodeInt16sCons(vs[0], tail, |vs| - 1);
      Int16sRoundTrip(vs[1..], rest);
      assert [vs[0]] + vs[1..] == vs;
    }
  }

  /** Reading one more value from the front: its two bytes come first. */
  lemma DecodeInt16sCons(v: int, tail: seq<Byte>, count: nat)
    requires IsInt16(v) && |tail| >= 2 * count
    ensures DecodeInt16s(I16(v) + tail, count + 1) == [v] + DecodeInt16s(tail, count)
  {
    var bs := I16(v) + tail;
    assert bs[..2] == I16(v);
    assert bs[2..] == tail;
    I16RoundTrip(v);
  }

  lemma {:induction false} Int8sRoundTrip(vs: seq<int>, rest: seq<Byte>)
    requires AllInt8(vs)
    ensures DecodeInt8s(EncodeInt8s(vs) + rest, |vs|) == vs
  {
    if vs != [] {
      var tail := EncodeInt8s(vs[1..]) + rest;
      assert EncodeInt8s(vs) + rest == I8(vs[0]) + tail;
      DecodeInt8sCons(vs[0], tail, |vs| - 1);
      Int8sRoundTrip(vs[1..], rest);
      assert [vs[0]] + vs[1..] == vs;
    }
  }

  /** Reading one more value from the front: its one byte comes first. */
  lemma DecodeInt8sCons(v: int, tail: seq<Byte>, count: nat)
    requires IsInt8(v) && |tail| >= count
    ensures DecodeInt8s(I8(v) + tail, count + 1) == [v] + DecodeInt8s(tail, count)
  {
    var bs := I8(v) + tail;
    assert bs[..1] == I8(v);
    assert bs[1..] == tail;
    I8RoundTrip(v);
  }
  /** Writing one more value appends its two bytes: the writer can go value by value. */
  lemma {:induction false} EncodeInt16sSnoc(vs: seq<int>, v: int)
    requires AllInt16(vs) && IsInt16(v)
    ensures AllInt16(vs + [v]) && EncodeInt16s(vs + [v]) == EncodeInt16s(vs) + I16(v)
  {
    assert AllInt16(vs + [v]) by {
      forall i | 0 <= i < |vs + [v]| ensures IsInt16((vs + [v])[i]) {
        if i < |vs| { assert (vs + [v])[i] == vs[i]; }
      }
    }
    if vs != [] {
      assert (vs + [v])[1..] == vs[1..] + [v];
      EncodeInt16sSnoc(vs[1..], v);
    }
  }

  /** Writing one more value appends its byte. */
  lemma {:induction false} EncodeInt8sSnoc(vs: seq<int>, v: int)
    requires AllInt8(vs) && IsInt8(v)
    ensures AllInt8(vs + [v]) && EncodeInt8s(vs + [v]) == EncodeInt8s(vs) + I8(v)
  {
    assert AllInt8(vs + [v]) by {
      forall i | 0 <= i < |vs + [v]| ensures IsInt8((vs + [v])[i]) {
        if i < |vs| { assert (vs + [v])[i] == vs[i]; }
      }
    }
    if vs != [] {
      assert (vs + [v])[1..] == vs[1..] + [v];
      EncodeInt8sSnoc(vs[1..], v);
    }
  }
}
