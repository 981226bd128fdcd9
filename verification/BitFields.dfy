/** The packed 32-byte parameters of the contract.  The source extracts a field
    with a mask and a shift on the 256-bit integer; here the bitwise operations are
    defined bit by bit, and each mask-and-shift is proved to read the big-endian
    bytes that the field is documented to occupy. */
module BitFields {
  import opened Bytes
  import opened SafeMath

  /** Bitwise conjunction, least significant bit first. */
  function And(a: nat, b: nat): nat {
    if a == 0 || b == 0 then 0
    else (if a % 2 == 1 && b % 2 == 1 then 1 else 0) + 2 * And(a / 2, b / 2)
  }

  /** `a << k` on a 256-bit word, losing the bits shifted out. */
  function Shl(a: Uint256, k: nat): Uint256
    decreases k, a
  {
    if k == 0 then a else (2 * Shl(a, k - 1)) % WORD
  }

  function Shr(a: nat, k: nat): nat
    decreases k, a
  {
    if k == 0 then a else Shr(a / 2, k - 1)
  }

  const MASK_64: Uint256 := 0xFFFFFFFFFFFFFFFF
  const MASK_HIGH_32: Uint256 := 0xFFFFFFFF00000000

  // The expressions of the contract, as written there.
  function SlaLevel(params: Uint256): nat { Shr(params, 248) }
  function PledgedStorage(params: Uint256): nat { Shr(And(params, Shl(MASK_64, 184)), 184) }
  function Bandwidth(params: Uint256): nat { Shr(And(params, Shl(MASK_64, 120)), 120) }
  function MinAskPrice(params: Uint256): nat { Shr(And(params, Shl(MASK_64, 56)), 56) }
  function TimeInMonths(params: Uint256): nat { Shr(And(params, Shl(MASK_HIGH_32, 192)), 192 + 32) }

  // ---- mask and shift ----

  function Pow2(k: nat): (p: nat)
    ensures p > 0
  {
    if k == 0 then 1 else 2 * Pow2(k - 1)
  }

  /** The `n` least significant bits of `x`. */
  function Low(x: nat, n: nat): nat
    decreases n, x
  {
    if n == 0 then 0 else x % 2 + 2 * Low(x / 2, n - 1)
  }

  /** `n` ones followed by `s` zeros. */
  function Mask(n: nat, s: nat): nat {
    if s > 0 then 2 * Mask(n, s - 1)
    else if n == 0 then 0
    else 1 + 2 * Mask(n - 1, 0)
  }

  lemma {:induction false} AndMask(x: nat, n: nat)
    ensures And(x, Mask(n, 0)) == Low(x, n)
  {
    if n == 0 {
    } else {
      AndMask(x / 2, n - 1);
    }
  }

  /** Masking `n` bits at offset `s` and shifting them down reads those `n` bits. */
  lemma {:induction false} MaskShift(x: nat, n: nat, s: nat)
    ensures Shr(And(x, Mask(n, s)), s) == Low(Shr(x, s), n)
  {
    if s == 0 {
      AndMask(x, n);
    } else {
      MaskShift(x / 2, n, s - 1);
      assert And(x, Mask(n, s)) == 2 * And(x / 2, Mask(n, s - 1));
    }
  }

  lemma {:induction false} MaskBound(n: nat, s: nat)
    ensures Mask(n, s) < Pow2(n + s)
  {
    if s > 0 {
      MaskBound(n, s - 1);
    } else if n > 0 {
      MaskBound(n - 1, 0);
    }
  }

  lemma {:induction false} Pow2Mono(j: nat, k: nat)
    requires j <= k
    ensures Pow2(j) <= Pow2(k)
  {
    if j == k {
    } else {
      Pow2Mono(j, k - 1);
    }
  }

  lemma Pow2Word(k: nat)
    ensures Pow2(k + 32) == 0x1_00000000 * Pow2(k)
  {
    Pow2Byte(k);
    Pow2Byte(k + 8);
    Pow2Byte(k + 16);
    Pow2Byte(k + 24);
  }

  lemma Pow2DoubleWord(k: nat)
    ensures Pow2(k + 64) == 0x1_00000000_00000000 * Pow2(k)
  {
    Pow2Word(k);
    Pow2Word(k + 32);
  }

  // The widths are parameters so that the solver does not unfold Pow2 256 times.
  lemma WordIsPow2(k: nat)
    ensures Pow2(k + 256) == WORD * Pow2(k)
  {
    Pow2DoubleWord(k);
    Pow2DoubleWord(k + 64);
    Pow2DoubleWord(k + 128);
    Pow2DoubleWord(k + 192);
  }

  lemma BelowWord(x: nat, n: nat)
    requires x < Pow2(n) && n <= 256
    ensures x < WORD
  {
    Pow2Mono(n, 256);
    WordIsPow2(0);
  }

  lemma {:induction false} MaskValue(n: nat)
    ensures Mask(n, 0) == Pow2(n) - 1
  {
    if n == 0 {
    } else {
      MaskValue(n - 1);
    }
  }

  lemma MaskByte(n: nat, s: nat)
    ensures Mask(n, s + 8) == 256 * Mask(n, s)
  {
    assert Mask(n, s + 8) == 4 * Mask(n, s + 6);
    assert Mask(n, s + 6) == 4 * Mask(n, s + 4);
    assert Mask(n, s + 4) == 4 * Mask(n, s + 2);
  }

  lemma MaskWord(n: nat, s: nat)
    ensures Mask(n, s + 32) == 0x1_00000000 * Mask(n, s)
  {
    MaskByte(n, s);
    MaskByte(n, s + 8);
    MaskByte(n, s + 16);
    MaskByte(n, s + 24);
  }

  lemma SourceMask64(n: nat)
    requires n == 64
    ensures Mask(n, 0) == MASK_64
  {
    hide Mask;
    Pow2DoubleWord(0);
    MaskValue(n);
  }

  lemma MaskHigh(n: nat)
    ensures Mask(n, 32) == 0x1_00000000 * (Pow2(n) - 1)
  {
    MaskValue(n);
    MaskWord(n, 0);
  }

  lemma SourceMask32(n: nat)
    requires n == 32
    ensures Mask(n, n) == MASK_HIGH_32
  {
    hide Mask;
    Pow2Word(0);
    MaskHigh(n);
  }

  /** Moving a mask within the word loses none of its bits. */
  lemma {:induction false} ShlMask(n: nat, s: nat, k: nat)
    requires n + s + k <= 256 && Mask(n, s) < WORD
    ensures Shl(Mask(n, s), k) == Mask(n, s + k)
  {
    if k == 0 {
    } else {
      ShlMask(n, s, k - 1);
      MaskBound(n, s + k);
      BelowWord(Mask(n, s + k), n + s + k);
    }
  }

  lemma {:induction false} LowBound(x: nat, n: nat)
    ensures Low(x, n) < Pow2(n)
    ensures x < Pow2(n) ==> Low(x, n) == x
  {
    if n == 0 {
    } else {
      LowBound(x / 2, n - 1);
    }
  }

  lemma {:induction false} ShrBound(x: nat, k: nat, n: nat)
    requires x < Pow2(k + n)
    ensures Shr(x, k) < Pow2(n)
  {
    if k == 0 {
    } else {
      ShrBound(x / 2, k - 1, n);
    }
  }

  // ---- big-endian bytes ----

  lemma {:induction false} ValueBound(bs: seq<Byte>)
    ensures Value(bs) < Pow2(8 * |bs|)
  {
    if bs == [] {
    } else {
      ValueBound(bs[..|bs| - 1]);
      Pow2Byte(8 * (|bs| - 1));
    }
  }

  lemma Pow2Byte(k: nat)
    ensures Pow2(k + 8) == 256 * Pow2(k)
  {
    assert Pow2(k + 8) == 4 * Pow2(k + 6);
    assert Pow2(k + 6) == 4 * Pow2(k + 4);
    assert Pow2(k + 4) == 4 * Pow2(k + 2);
  }

  lemma ShrByte(x: nat, k: nat)
    ensures Shr(x, k + 8) == Shr(x / 256, k)
  {
    assert Shr(x, k + 8) == Shr(x / 4, k + 6);
    assert Shr(x / 4, k + 6) == Shr(x / 16, k + 4);
    assert Shr(x / 16, k + 4) == Shr(x / 64, k + 2);
  }

  lemma LowNone(x: nat)
    ensures Low(x, 0) == 0
  {
  }

  lemma LowPair(x: nat, n: nat)
    ensures Low(x, n + 2) == x % 4 + 4 * Low(x / 4, n)
  {
    assert Low(x, n + 2) == x % 2 + 2 * Low(x / 2, n + 1);
  }

  lemma LowNibble(x: nat, n: nat)
    ensures Low(x, n + 4) == x % 16 + 16 * Low(x / 16, n)
  {
    hide Low;
    LowPair(x, n + 2);
    LowPair(x / 4, n);
    assert x / 4 / 4 == x / 16 && x % 4 + 4 * (x / 4 % 4) == x % 16;
  }

  lemma LowByte(x: nat, n: nat)
    ensures Low(x, n + 8) == x % 256 + 256 * Low(x / 256, n)
  {
    hide Low;
    LowNibble(x, n + 4);
    LowNibble(x / 16, n);
    assert x / 16 / 16 == x / 256 && x % 16 + 16 * (x / 16 % 16) == x % 256;
  }

  /** Shifting whole bytes out leaves the leading bytes. */
  lemma {:induction false} LeadingBytes(bs: seq<Byte>, j: nat)
    requires j <= |bs|
    ensures Shr(Value(bs), 8 * (|bs| - j)) == Value(bs[..j])
    decreases |bs| - j
  {
    if j == |bs| {
      assert bs[..j] == bs;
    } else {
      var front := bs[..|bs| - 1];
      LeadingBytes(front, j);
      assert front[..j] == bs[..j];
      ShrByte(Value(bs), 8 * (|front| - j));
    }
  }

  /** Keeping whole bytes leaves the trailing bytes. */
  lemma {:induction false} TrailingBytes(bs: seq<Byte>, i: nat)
    requires i <= |bs|
    ensures Low(Value(bs), 8 * (|bs| - i)) == Value(bs[i..])
    decreases |bs| - i
  {
    hide Low;
    if i == |bs| {
      LowNone(Value(bs));
    } else {
      var front := bs[..|bs| - 1];
      TrailingBytes(front, i);
      assert bs[i..][..|bs[i..]| - 1] == front[i..];
      LowByte(Value(bs), 8 * (|front| - i));
    }
  }

  lemma ByteRange(bs: seq<Byte>, i: nat, j: nat)
    requires i <= j <= |bs|
    ensures Low(Shr(Value(bs), 8 * (|bs| - j)), 8 * (j - i)) == Value(bs[i..j])
  {
    LeadingBytes(bs, j);
    TrailingBytes(bs[..j], i);
    assert bs[..j][i..] == bs[i..j];
  }

  // ---- the fields ----

  lemma Mask64At(s: nat)
    requires s <= 192
    ensures Shl(MASK_64, s) == Mask(64, s)
  {
    SourceMask64(64);
    ShlMask(64, 0, s);
  }

  lemma Field64(bs: seq<Byte>, i: nat)
    requires |bs| == 32 && 1 <= i <= 24
    ensures Shr(And(Value(bs), Shl(MASK_64, 8 * (24 - i))), 8 * (24 - i)) == Value(bs[i..i + 8])
  {
    Mask64At(8 * (24 - i));
    MaskShift(Value(bs), 64, 8 * (24 - i));
    ByteRange(bs, i, i + 8);
  }

  lemma TopBits(x: Uint256, k: nat, n: nat)
    requires k + n == 256
    ensures Shr(x, k) < Pow2(n)
  {
    WordIsPow2(0);
    ShrBound(x, k, n);
  }

  lemma Top32(x: Uint256)
    ensures Shr(x, 224) < Pow2(32) == 0x1_00000000
  {
    TopBits(x, 224, 32);
    Pow2Word(0);
  }

  /** The months mask covers the four most significant bytes. */
  lemma MonthsField(x: Uint256)
    ensures TimeInMonths(x) == Shr(x, 224) < 0x1_00000000
  {
    SourceMask32(32);
    ShlMask(32, 32, 192);
    MaskShift(x, 32, 224);
    Top32(x);
    LowBound(Shr(x, 224), 32);
  }

  /** Every field expression of the contract reads exactly its byte range of the
      32-byte parameters. */
  lemma FieldsAreByteRanges(bs: seq<Byte>, v: Uint256)
    requires |bs| == 32 && v == Value(bs)
    ensures SlaLevel(v) == Value(bs[..1])
    ensures PledgedStorage(v) == Value(bs[1..9])
    ensures Bandwidth(v) == Value(bs[9..17])
    ensures MinAskPrice(v) == Value(bs[17..25])
    ensures TimeInMonths(v) == Value(bs[..4])
  {
    LeadingBytes(bs, 1);
    Field64(bs, 1);
    Field64(bs, 9);
    Field64(bs, 17);
    MonthsField(v);
    LeadingBytes(bs, 4);
  }

  lemma WordBytes(bs: seq<Byte>)
    requires |bs| == 32
    ensures Value(bs) < WORD
  {
    ValueBound(bs);
    BelowWord(Value(bs), 8 * |bs|);
  }

  /** A 64-bit field is a 64-bit number. */
  lemma Field64Bound(x: Uint256, s: nat)
    requires s <= 192
    ensures Shr(And(x, Shl(MASK_64, s)), s) <= MASK_64
  {
    hide And, Shl, Shr, Low, Mask;
    Mask64At(s);
    MaskShift(x, 64, s);
    LowBound(Shr(x, s), 64);
    Pow2DoubleWord(0);
  }

  lemma FieldBounds(x: Uint256)
    ensures SlaLevel(x) < 256
    ensures PledgedStorage(x) <= MASK_64 && Bandwidth(x) <= MASK_64 && MinAskPrice(x) <= MASK_64
  {
    TopBits(x, 248, 8);
    Pow2Byte(0);
    Field64Bound(x, 184);
    Field64Bound(x, 120);
    Field64Bound(x, 56);
  }
}
