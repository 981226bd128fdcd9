/** Byte strings, big-endian integers, and the two streams of the shard code: a
    reader with a cursor, and a writer that hashes what it writes. */
module Bytes {

  type Byte = n: nat | n < 256
  type ByteString = seq<Byte>

  datatype Option<+T> = None | Some(value: T)

  /** `Rejected` is an error return of the source, `Panicked` a run-time panic. */
  datatype Result<+T> = Ok(value: T) | Rejected | Panicked {
    predicate IsFailure() {
      !Ok?
    }

    function PropagateFailure<U>(): Result<U>
      requires !Ok?
    {
      if Rejected? then Result.Rejected else Result.Panicked
    }

    function Extract(): T
      requires Ok?
    {
      value
    }
  }

  function Zeros(n: nat): ByteString {
    seq(n, i => 0)
  }

  /** The integer that a byte string denotes, most significant byte first. */
  function Value(bs: ByteString): nat {
    if bs == [] then 0 else Value(bs[..|bs| - 1]) * 256 + bs[|bs| - 1]
  }

  function BigEndian(v: nat, width: nat): (bs: ByteString)
    ensures |bs| == width
  {
    if width == 0 then [] else BigEndian(v / 256, width - 1) + [v % 256]
  }

  function Pow256(width: nat): nat {
    if width == 0 then 1 else 256 * Pow256(width - 1)
  }

  lemma {:induction false} ValueOfBigEndian(v: nat, width: nat)
    requires v < Pow256(width)
    ensures Value(BigEndian(v, width)) == v
  {
    if width == 0 {
    } else {
      ValueOfBigEndian(v / 256, width - 1);
      var bs := BigEndian(v, width);
      assert bs[..|bs| - 1] == BigEndian(v / 256, width - 1);
    }
  }

  /** The first bytes are the most significant ones. */
  lemma {:induction false} ValueOfConcat(a: ByteString, b: ByteString)
    ensures Value(a + b) == Value(a) * Pow256(|b|) + Value(b)
    decreases |b|
  {
    if b == [] {
      assert a + b == a;
    } else {
      var front := b[..|b| - 1];
      ValueOfConcat(a, front);
      assert (a + b)[..|a + b| - 1] == a + front;
      assert Value(a) * Pow256(|front|) * 256 == Value(a) * Pow256(|b|);
    }
  }

  lemma {:induction false} BigEndianOfValue(bs: ByteString)
    ensures BigEndian(Value(bs), |bs|) == bs && Value(bs) < Pow256(|bs|)
  {
    if bs == [] {
    } else {
      BigEndianOfValue(bs[..|bs| - 1]);
      assert bs == bs[..|bs| - 1] + [bs[|bs| - 1]];
    }
  }

  const TWO_32: nat := 0x1_00000000
  const TWO_63: nat := 0x80000000_00000000
  const TWO_64: nat := 0x1_00000000_00000000

  type Uint32 = n: nat | n < TWO_32
  type Int32 = n: int | -0x80000000 <= n < 0x80000000
  type Int64 = n: int | -0x80000000_00000000 <= n < 0x80000000_00000000

  lemma Widths()
    ensures Pow256(4) == TWO_32 && Pow256(8) == TWO_64
  {
    assert Pow256(2) == 65536;
    assert Pow256(4) == 65536 * Pow256(2);
    assert Pow256(6) == 65536 * Pow256(4);
    assert Pow256(8) == 65536 * Pow256(6);
  }

  // Go's conversions between signed and unsigned integers of one width.
  function Uint32Of(n: Int32): nat { if n < 0 then n + TWO_32 else n }
  function Int32Of(n: nat): Int32 requires n < TWO_32 { if n >= 0x80000000 then n - TWO_32 else n }
  function Uint64Of(n: Int64): nat { if n < 0 then n + TWO_64 else n }
  function Int64Of(n: nat): Int64 requires n < TWO_64 { if n >= TWO_63 then n - TWO_64 else n }

  /** A stream that is read from the front. */
  class ByteReader {
    const data: ByteString
    var pos: nat

    ghost predicate Valid()
      reads this
    {
      pos <= |data|
    }

    constructor (data: ByteString)
      ensures Valid() && pos == 0 && this.data == data
    {
      this.data := data;
      this.pos := 0;
    }

    /** Reads `n` bytes; a shorter stream is used up and reported. */
    method ReadExactly(n: nat) returns (r: Result<ByteString>)
      requires Valid()
      modifies this
      ensures Valid()
      ensures if old(pos) + n <= |data| then r == Ok(data[old(pos)..old(pos) + n]) && pos == old(pos) + n
              else r == Rejected && pos == |data|
    {
      if pos + n <= |data| {
        r := Ok(data[pos..pos + n]);
        pos := pos + n;
      } else {
        r := Rejected;
        pos := |data|;
      }
    }

    method ReadByte() returns (r: Result<Byte>)
      requires Valid()
      modifies this
      ensures Valid()
      ensures if old(pos) < |data| then r == Ok(data[old(pos)]) && pos == old(pos) + 1
              else r == Rejected && pos == |data|
    {
      var bs :- ReadExactly(1);
      r := Ok(bs[0]);
    }

    method ReadUint(width: nat) returns (r: Result<nat>)
      requires Valid()
      modifies this
      ensures Valid()
      ensures if old(pos) + width <= |data|
              then
                && r == Ok(Value(data[old(pos)..old(pos) + width])) && r.value < Pow256(width)
                && pos == old(pos) + width
              else r == Rejected && pos == |data|
    {
      var bs :- ReadExactly(width);
      BigEndianOfValue(bs);
      r := Ok(Value(bs));
    }

    /** `io.Copy` from an `io.LimitedReader`: at most `n` bytes, none for a negative limit. */
    method ReadUpTo(n: int) returns (bs: ByteString)
      requires Valid()
      modifies this
      ensures Valid() && old(pos) <= pos && bs == data[old(pos)..pos]
      ensures pos == if n < 0 then old(pos) else if old(pos) + n <= |data| then old(pos) + n else |data|
    {
      var end := if n < 0 then pos else if pos + n <= |data| then pos + n else |data|;
      bs := data[pos..end];
      pos := end;
    }

    method Rewind()
      modifies this
      ensures Valid() && pos == 0
    {
      pos := 0;
    }
  }

  /** A writer whose output goes to the data and to the hash; the two can be fed
      separately. */
  class HashingWriter {
    var toData: ByteString
    var toHash: ByteString

    constructor ()
      ensures toData == [] && toHash == []
    {
      toData, toHash := [], [];
    }

    method Write(p: ByteString)
      modifies this
      ensures toData == old(toData) + p && toHash == old(toHash) + p
    {
      toData, toHash := toData + p, toHash + p;
    }
  }
}
