/** The forward-only byte cursor `Reader` of main.py. The opened file is an
    in-memory byte sequence `data` with a read position; `Pointer` is the
    reader's own counter of requested bytes, kept apart from that position. */
module Reading {
  import opened Bytes

  function Min(a: int, b: int): (m: int)
    ensures m <= a && m <= b
    ensures m == a || m == b
  {
    if a <= b then a else b
  }

  /** The range of a C `Py_ssize_t` on a 64-bit build, into which `File.read`
      converts its count before doing anything else. */
  const SsizeMin: int := -0x8000_0000_0000_0000
  const SsizeMax: int := 0x7FFF_FFFF_FFFF_FFFF

  /** The counts `File.read(n)` accepts: -1 (read to the end of the file) and
      every non-negative count that fits in a `Py_ssize_t`. */
  predicate Accepted(n: int)
  {
    -1 <= n <= SsizeMax
  }

  /** What `File.read(n)` on a file opened for binary reading returns: the
      bytes read, the `OverflowError` it raises for a count outside the
      `Py_ssize_t` range, or the `ValueError` it raises for a count in that
      range but below -1. */
  datatype ReadResult = Ok(bytes: seq<Byte>) | ValueError | OverflowError

  /** The file position after `File.read(n)` from position p of a file of
      length len: n == -1 reads to the end of the file, a refused count leaves
      the position where it was, and any other n moves forward by n bytes but
      never past the end. */
  function Advance(len: nat, p: nat, n: int): (q: nat)
    requires p <= len
    ensures p <= q <= len
    ensures 0 <= n <= SsizeMax ==> q == Min(p + n, len)
    ensures n == -1 ==> q == len
    ensures !Accepted(n) ==> q == p
  {
    if !Accepted(n) then p
    else if n == -1 || p + n > len then len
    else p + n
  }

  /** The bytes `File.read(n)` takes from position p: the next min(n, remaining)
      bytes in stream order, all remaining ones for n == -1, and none for a
      refused count. */
  function Take(data: seq<Byte>, p: nat, n: int): (r: seq<Byte>)
    requires p <= |data|
    ensures p + |r| == Advance(|data|, p, n)
    ensures 0 <= n <= SsizeMax ==> |r| == Min(n, |data| - p)
    ensures !Accepted(n) ==> r == []
    ensures r == data[p..p + |r|]
  {
    data[p..Advance(|data|, p, n)]
  }

  /** The sum of all requested byte counts. */
  function Sum(s: seq<int>): (total: int)
  {
    if s == [] then 0 else Sum(s[..|s| - 1]) + s[|s| - 1]
  }

  /** Counting `n` more requested bytes adds `n` to the total. */
  lemma SumAppend(s: seq<int>, n: int)
    ensures Sum(s + [n]) == Sum(s) + n
  {
  }

  /** The file position after the reads `requests`, in order, from position 0. */
  function PositionAfter(len: nat, requests: seq<int>): (p: nat)
    ensures p <= len
  {
    if requests == [] then 0
    else Advance(len, PositionAfter(len, requests[..|requests| - 1]), requests[|requests| - 1])
  }

  /** All delivered chunks, joined in the order they were delivered. */
  function Flatten(chunks: seq<seq<Byte>>): (joined: seq<Byte>)
  {
    if chunks == [] then [] else Flatten(chunks[..|chunks| - 1]) + chunks[|chunks| - 1]
  }

  /** As long as every read asks for a count from 0 up to the largest
      `Py_ssize_t`, the file position is the requested total cut off at the
      end of the file: `Pointer` runs ahead of the position exactly by what
      end-of-file reads could not deliver. */
  lemma {:induction false} PositionIsClampedPointer(len: nat, requests: seq<int>)
    requires forall i :: 0 <= i < |requests| ==> 0 <= requests[i] <= SsizeMax
    ensures PositionAfter(len, requests) == Min(Sum(requests), len)
    ensures Sum(requests) >= 0
  {
    if requests != [] {
      PositionIsClampedPointer(len, requests[..|requests| - 1]);
    }
  }

  /** The bytes `ReadInt` consumes at p: the next four, fewer at end of file. */
  function IntBytes(data: seq<Byte>, p: nat): (r: seq<Byte>)
    requires p <= |data|
    ensures |r| <= 4
  {
    Take(data, p, 4)
  }

  /** The value `ReadInt` returns at p, such as the length prefix of a string. */
  function IntAt(data: seq<Byte>, p: nat, order: ByteOrder): (size: nat)
    requires p <= |data|
    ensures size < 0x1_0000_0000
  {
    var prefix := IntBytes(data, p);
    assert Pow256(|prefix|) <= Pow256(4) by { Pow256Monotone(|prefix|, 4); }
    assert Pow256(4) == 0x1_0000_0000;
    FromBytes(prefix, order)
  }

  /** With four bytes left, the little-endian integer at p is
      b0 + 256·b1 + 65536·b2 + 16777216·b3 of the bytes data[p..p + 4]. */
  lemma IntAtLittle(data: seq<Byte>, p: nat)
    requires p + 4 <= |data|
    ensures IntAt(data, p, Little) ==
      (data[p] as int) + 256 * (data[p + 1] as int) + 65536 * (data[p + 2] as int)
      + 16777216 * (data[p + 3] as int)
  {
    var bs := IntBytes(data, p);
    assert bs == data[p..p + 4];
    LittleEndianFour(bs);
  }

  /** Reading |mid| bytes right after `before` delivers `mid`, whatever follows,
      as long as `read` accepts the count |mid|. */
  lemma TakeBetween(before: seq<Byte>, mid: seq<Byte>, after: seq<Byte>)
    requires |mid| <= SsizeMax
    ensures Take(before + mid + after, |before|, |mid|) == mid
  {
  }

  /** Two consecutive reads of |prefix| and |payload| bytes after `before`
      deliver `prefix` and then `payload`. */
  lemma ConsecutiveTakes(before: seq<Byte>, prefix: seq<Byte>, payload: seq<Byte>, after: seq<Byte>)
    requires |prefix| <= SsizeMax && |payload| <= SsizeMax
    ensures var data := before + prefix + payload + after;
            && Take(data, |before|, |prefix|) == prefix
            && Take(data, |before| + |prefix|, |payload|) == payload
  {
    var data := before + prefix + payload + after;
    assert data == before + prefix + (payload + after);
    TakeBetween(before, prefix, payload + after);
    TakeBetween(before + prefix, payload, after);
  }

  /** A payload written after its length, encoded little-endian in `width`
      bytes, is delimited exactly by that length. */
  lemma FramedPayload(before: seq<Byte>, payload: seq<Byte>, after: seq<Byte>, width: nat)
    requires |payload| < Pow256(width)
    requires width <= SsizeMax && |payload| <= SsizeMax
    ensures var data := before + LittleEndianBytes(|payload|, width) + payload + after;
            && LittleEndian(Take(data, |before|, width)) == |payload|
            && Take(data, |before| + width, |payload|) == payload
  {
    var prefix := LittleEndianBytes(|payload|, width);
    ConsecutiveTakes(before, prefix, payload, after);
    var data := before + prefix + payload + after;
    assert Take(data, |before|, width) == prefix;
    DecodeEncode(|payload|, width);
  }

  class Reader {
    /** Bytes requested so far (main.py's `Pointer`). */
    var Pointer: int
    /** The contents of the opened file. */
    const data: seq<Byte>
    /** The file's own read position. */
    var position: nat
    /** The byte order of multi-byte reads; unset means little-endian. */
    var endian: Option<ByteOrder>
    /** Assigned by the constructor and read by nothing. */
    var SizeT: int

    /** The count passed to every read of the file so far, in order. */
    ghost var requests: seq<int>
    /** What every read of the file so far returned, in order. */
    ghost var delivered: seq<seq<Byte>>

    /** `Pointer` is the total requested, the position is where those requests
        leave the file, and the delivered chunks are consecutive, do not
        overlap, and together are exactly the bytes before the position. */
    ghost predicate Valid()
      reads this
    {
      && FileValid()
      && Pointer == Sum(requests)
    }

    ghost predicate FileValid()
      reads this
    {
      && position <= |data|
      && position == PositionAfter(|data|, requests)
      && |delivered| == |requests|
      && Flatten(delivered) == data[..position]
    }

    constructor (contents: seq<Byte>)
      ensures Valid()
      ensures data == contents && position == 0
      ensures Pointer == 0 && endian == None && SizeT == 4
      ensures requests == [] && delivered == []
    {
      Pointer := 0;
      data := contents;
      position := 0;
      endian := None;
      SizeT := 4;
      requests := [];
      delivered := [];
    }

    /** `File.read(n)`: moves the file position and leaves `Pointer` alone. A
        count outside the `Py_ssize_t` range raises `OverflowError`, and one
        in that range but below -1 raises `ValueError`; either moves nothing.
        A refused read is still recorded as requested, with nothing delivered. */
    method FileRead(n: int) returns (r: ReadResult)
      requires FileValid()
      modifies this`position, this`requests, this`delivered
      ensures FileValid()
      ensures r.OverflowError? <==> n < SsizeMin || SsizeMax < n
      ensures r.ValueError? <==> SsizeMin <= n < -1
      ensures r.Ok? ==> r.bytes == Take(data, old(position), n)
      ensures position == old(position) + |Take(data, old(position), n)|
      ensures requests == old(requests) + [n]
      ensures delivered == old(delivered) + [Take(data, old(position), n)]
    {
      var next := Advance(|data|, position, n);
      var bs := data[position..next];
      r := if n < SsizeMin || SsizeMax < n then OverflowError
           else if n < -1 then ValueError
           else Ok(bs);
      assert (requests + [n])[..|requests|] == requests;
      assert (delivered + [bs])[..|delivered|] == delivered;
      assert data[..position] + bs == data[..next];
      position := next;
      requests := requests + [n];
      delivered := delivered + [bs];
    }

    /** `ReadByte`: the next byte, or nothing at end of file; `Pointer` moves by 1 either way. */
    method ReadByte() returns (bs: seq<Byte>)
      requires Valid()
      modifies this`Pointer, this`position, this`requests, this`delivered
      ensures Valid()
      ensures Pointer == old(Pointer) + 1
      ensures old(position) < |data| ==> bs == [data[old(position)]] && position == old(position) + 1
      ensures old(position) == |data| ==> bs == [] && position == old(position)
      ensures requests == old(requests) + [1] && delivered == old(delivered) + [bs]
    {
      SumAppend(requests, 1);
      Pointer := Pointer + 1;
      var r := FileRead(1);
      bs := r.bytes;
    }

    /** `ReadByteAsInt`: the next byte as a number, 0 at end of file. */
    method ReadByteAsInt() returns (v: nat)
      requires Valid()
      modifies this`Pointer, this`position, this`requests, this`delivered
      ensures Valid()
      ensures v < 256
      ensures Pointer == old(Pointer) + 1
      ensures old(position) < |data| ==> v == data[old(position)] && position == old(position) + 1
      ensures old(position) == |data| ==> v == 0 && position == old(position)
      ensures requests == old(requests) + [1]
      ensures delivered == old(delivered) + [Take(data, old(position), 1)]
    {
      SumAppend(requests, 1);
      Pointer := Pointer + 1;
      var r := FileRead(1);
      v := FromBytes(r.bytes, EffectiveOrder(endian));
    }

    /** `ReadBytes(Amount)`: `Pointer` moves by `Amount` even when end of file
        delivers fewer bytes; `Amount == -1` reads the rest of the file, and a
        refused `Amount` raises `OverflowError` or `ValueError` after `Pointer`
        has moved. */
    method ReadBytes(Amount: int) returns (r: ReadResult)
      requires Valid()
      modifies this`Pointer, this`position, this`requests, this`delivered
      ensures Valid()
      ensures Pointer == old(Pointer) + Amount
      ensures Amount < SsizeMin || SsizeMax < Amount ==> r == OverflowError
      ensures SsizeMin <= Amount < -1 ==> r == ValueError
      ensures !Accepted(Amount) ==> position == old(position)
      ensures Accepted(Amount) ==>
        && r == Ok(Take(data, old(position), Amount))
        && position == old(position) + |r.bytes|
      ensures requests == old(requests) + [Amount]
      ensures delivered == old(delivered) + [Take(data, old(position), Amount)]
    {
      SumAppend(requests, Amount);
      Pointer := Pointer + Amount;
      r := FileRead(Amount);
    }

    /** `ReadInt`: a four-byte unsigned integer in the reader's byte order. */
    method ReadInt() returns (v: nat)
      requires Valid()
      modifies this`Pointer, this`position, this`requests, this`delivered
      ensures Valid()
      ensures Pointer == old(Pointer) + 4
      ensures v == IntAt(data, old(position), EffectiveOrder(endian))
      ensures v < 0x1_0000_0000
      ensures position == Advance(|data|, old(position), 4)
      ensures requests == old(requests) + [4]
      ensures delivered == old(delivered) + [IntBytes(data, old(position))]
    {
      SumAppend(requests, 4);
      Pointer := Pointer + 4;
      var r := FileRead(4);
      v := FromBytes(r.bytes, EffectiveOrder(endian));
    }

    /** `ReadString`: a four-byte length `Size`, then exactly `Size` requested
        bytes; `Pointer` moves by 4 + `Size` and the payload is what follows
        the prefix. The payload is returned as raw bytes. */
    method ReadString() returns (s: seq<Byte>)
      requires Valid()
      modifies this`Pointer, this`position, this`requests, this`delivered
      ensures Valid()
      ensures var size := IntAt(data, old(position), EffectiveOrder(endian));
              var start := Advance(|data|, old(position), 4);
              && Pointer == old(Pointer) + 4 + size
              && s == Take(data, start, size)
              && position == start + |s|
              && requests == old(requests) + [4] + [size]
              && delivered == old(delivered) + [IntBytes(data, old(position))] + [s]
    {
      ghost var requested := requests + [4];
      var Size := ReadInt();
      var r := FileRead(Size);
      s := r.bytes;
      SumAppend(requested, Size);
      Pointer := Pointer + Size;
    }
  }

  /** A string written as a little-endian length and its payload, after any
      bytes the caller has skipped with `ReadBytes`, is read back whole by
      `ReadString`, and `Pointer` then counts the skipped bytes, the prefix and
      the payload. */
  method ReadFramedString(before: seq<Byte>, payload: seq<Byte>, after: seq<Byte>)
    returns (s: seq<Byte>, pointer: int)
    requires |before| <= SsizeMax && |payload| < 0x1_0000_0000
    ensures s == payload
    ensures pointer == |before| + 4 + |payload|
  {
    assert Pow256(4) == 0x1_0000_0000;
    var r := new Reader(before + LittleEndianBytes(|payload|, 4) + payload + after);
    var skipped := r.ReadBytes(|before|);
    FramedPayload(before, payload, after, 4);
    s := r.ReadString();
    pointer := r.Pointer;
  }
}
