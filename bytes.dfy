/** Unsigned integers built from bytes, as Python's `int.from_bytes` builds them
    for the reader in main.py, together with the inverse encoding used to state
    round trips. */
module Bytes {

  /** One byte of the chunk file. */
  type Byte = b: int | 0 <= b < 256

  /** The byte order argument of `int.from_bytes`. */
  datatype ByteOrder = Little | Big

  datatype Option<T> = None | Some(value: T)

  /** `endian or "little"`: an unset byte order falls back to little-endian. */
  function EffectiveOrder(endian: Option<ByteOrder>): (order: ByteOrder)
    ensures endian.None? ==> order == Little
    ensures endian.Some? ==> order == endian.value
  {
    match endian
    case None => Little
    case Some(o) => o
  }

  /** 256 to the power n: one more than the largest value n bytes can hold. */
  function Pow256(n: nat): (r: nat)
    ensures r >= 1
  {
    if n == 0 then 1 else 256 * Pow256(n - 1)
  }

  /** More bytes never lower the bound. */
  lemma {:induction false} Pow256Monotone(m: nat, n: nat)
    requires m <= n
    ensures Pow256(m) <= Pow256(n)
  {
    if m < n {
      Pow256Monotone(m, n - 1);
    }
  }

  /** Little-endian value: the first byte is the least significant. */
  function LittleEndian(bs: seq<Byte>): (v: nat)
    ensures v < Pow256(|bs|)
  {
    if |bs| == 0 then 0 else bs[0] + 256 * LittleEndian(bs[1..])
  }

  /** Big-endian value: the last byte is the least significant. */
  function BigEndian(bs: seq<Byte>): (v: nat)
    ensures v < Pow256(|bs|)
  {
    if |bs| == 0 then 0 else 256 * BigEndian(bs[..|bs| - 1]) + bs[|bs| - 1]
  }

  /** `int.from_bytes(bs, order)`: always an unsigned value that fits in |bs| bytes;
      the empty sequence gives 0 and a single byte gives itself, whatever the order. */
  function FromBytes(bs: seq<Byte>, order: ByteOrder): (v: nat)
    ensures v < Pow256(|bs|)
    ensures |bs| == 0 ==> v == 0
    ensures |bs| == 1 ==> v == bs[0]
  {
    match order
    case Little => LittleEndian(bs)
    case Big => BigEndian(bs)
  }

  /** The bytes in the opposite order. */
  function Reverse(s: seq<Byte>): (r: seq<Byte>)
    ensures |r| == |s|
    ensures forall i :: 0 <= i < |s| ==> r[i] == s[|s| - 1 - i]
  {
    if |s| == 0 then [] else [s[|s| - 1]] + Reverse(s[..|s| - 1])
  }

  /** The two byte orders read the same bytes in opposite directions. */
  lemma {:induction false} BigEndianIsReversedLittleEndian(bs: seq<Byte>)
    ensures BigEndian(bs) == LittleEndian(Reverse(bs))
  {
    if |bs| > 0 {
      var init := bs[..|bs| - 1];
      BigEndianIsReversedLittleEndian(init);
      var r := Reverse(bs);
      assert r[0] == bs[|bs| - 1];
      assert r[1..] == Reverse(init);
    }
  }

  /** A four-byte little-endian value written out digit by digit, and its bound. */
  lemma LittleEndianFour(bs: seq<Byte>)
    requires |bs| == 4
    ensures LittleEndian(bs) == (bs[0] as int) + 256 * (bs[1] as int) + 65536 * (bs[2] as int) + 16777216 * (bs[3] as int)
    ensures LittleEndian(bs) < 0x1_0000_0000
  {
    assert LittleEndian(bs[3..]) == (bs[3] as int) by {
      assert bs[3..][1..] == [];
    }
    assert LittleEndian(bs[2..]) == (bs[2] as int) + 256 * (bs[3] as int) by {
      assert bs[2..][1..] == bs[3..];
    }
    assert LittleEndian(bs[1..]) == (bs[1] as int) + 256 * (bs[2] as int) + 65536 * (bs[3] as int) by {
      assert bs[1..][1..] == bs[2..];
    }
  }

  /** Inverse of LittleEndian: the n-byte little-endian encoding of v. */
  function LittleEndianBytes(v: nat, n: nat): (bs: seq<Byte>)
    requires v < Pow256(n)
    ensures |bs| == n
  {
    if n == 0 then [] else [v % 256] + LittleEndianBytes(v / 256, n - 1)
  }

  /** Decoding an encoded value gives the value back. */
  lemma {:induction false} DecodeEncode(v: nat, n: nat)
    requires v < Pow256(n)
    ensures LittleEndian(LittleEndianBytes(v, n)) == v
  {
    if n > 0 {
      DecodeEncode(v / 256, n - 1);
      var bs := LittleEndianBytes(v, n);
      assert bs[1..] == LittleEndianBytes(v / 256, n - 1);
    }
  }

  /** Encoding a decoded byte sequence at its own width gives the bytes back,
      so no two byte sequences of one width share a value. */
  lemma {:induction false} EncodeDecode(bs: seq<Byte>)
    ensures LittleEndianBytes(LittleEndian(bs), |bs|) == bs
  {
    if |bs| > 0 {
      EncodeDecode(bs[1..]);
      var v := LittleEndian(bs);
      assert v % 256 == bs[0];
      assert v / 256 == LittleEndian(bs[1..]);
    }
  }
}
