/** Machine-level value types shared by the state engine, the store and the log:
    an Option, fixed-width unsigned integers, and the little-endian byte layout
    that AVR and ARM Arduino boards give a multi-byte C++ object in memory. */
module Basics {

  datatype Option<T> = None | Some(value: T)

  /** uint8_t */
  newtype u8 = x: int | 0 <= x < 0x100

  const U16_LIMIT: nat := 0x1_0000
  const U32_LIMIT: nat := 0x1_0000_0000

  /** The two bytes of a uint16_t as they sit in memory, least significant first. */
  function U16Bytes(v: nat): (b: seq<u8>)
    requires v < U16_LIMIT
    ensures |b| == 2
  {
    [(v % 0x100) as u8, (v / 0x100) as u8]
  }

  /** The uint16_t stored in two consecutive bytes. */
  function U16Of(b: seq<u8>): (v: nat)
    requires |b| == 2
    ensures v < U16_LIMIT
  {
    b[0] as nat + 0x100 * b[1] as nat
  }

  /** The four bytes of a uint32_t as they sit in memory, least significant first. */
  function U32Bytes(v: nat): (b: seq<u8>)
    requires v < U32_LIMIT
    ensures |b| == 4
  {
    U16Bytes(v % U16_LIMIT) + U16Bytes(v / U16_LIMIT)
  }

  /** The uint32_t stored in four consecutive bytes. */
  function U32Of(b: seq<u8>): (v: nat)
    requires |b| == 4
    ensures v < U32_LIMIT
  {
    U16Of(b[..2]) + U16_LIMIT * U16Of(b[2..])
  }

  lemma U16RoundTrip(v: nat)
    requires v < U16_LIMIT
    ensures U16Of(U16Bytes(v)) == v
  {
  }

  lemma {:induction false} U16BytesRoundTrip(b: seq<u8>)
    requires |b| == 2
    ensures U16Bytes(U16Of(b)) == b
  {
    var v := U16Of(b);
    assert v % 0x100 == b[0] as nat;
    assert v / 0x100 == b[1] as nat;
  }

  lemma {:induction false} U32RoundTrip(v: nat)
    requires v < U32_LIMIT
    ensures U32Of(U32Bytes(v)) == v
  {
    var b := U32Bytes(v);
    assert b[..2] == U16Bytes(v % U16_LIMIT);
    assert b[2..] == U16Bytes(v / U16_LIMIT);
    U16RoundTrip(v % U16_LIMIT);
    U16RoundTrip(v / U16_LIMIT);
  }

  lemma {:induction false} U32BytesRoundTrip(b: seq<u8>)
    requires |b| == 4
    ensures U32Bytes(U32Of(b)) == b
  {
    var lo, hi := U16Of(b[..2]), U16Of(b[2..]);
    var v := U32Of(b);
    assert v % U16_LIMIT == lo && v / U16_LIMIT == hi;
    U16BytesRoundTrip(b[..2]);
    U16BytesRoundTrip(b[2..]);
    assert b == b[..2] + b[2..];
  }

  /** Four zero bytes hold the value 0, and no other bytes do. */
  lemma {:induction false} U32ZeroIffZeroBytes(b: seq<u8>)
    requires |b| == 4
    ensures U32Of(b) == 0 <==> b == [0, 0, 0, 0]
  {
    if U32Of(b) == 0 {
      assert U16Of(b[..2]) == 0 && U16Of(b[2..]) == 0;
      assert b[0] == 0 && b[1] == 0 && b[2] == 0 && b[3] == 0;
    }
  }

  function Zeros(n: nat): (z: seq<u8>)
    ensures |z| == n && forall i | 0 <= i < n :: z[i] == 0
  {
    seq(n, _ => 0)
  }
}
