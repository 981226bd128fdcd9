/** The libraries that the shard code calls, as functions with stated laws: the hash,
    the checksum, the signature, the Reed-Solomon code and the mxor code. */
module Codecs {
  import opened Arithmetic
  import opened Bytes

  const HASH_LEN: nat := 32
  const SIGNATURE_LEN: nat := 65
  const CRC_LEN: nat := 4

  /** One share of an erasure code and its number. */
  datatype Share = Share(number: nat, data: ByteString)

  datatype Env = Env(
    hash: ByteString -> ByteString,
    crc: ByteString -> nat,
    sign: ByteString -> ByteString,
    fecEncode: (nat, nat, ByteString) -> seq<ByteString>,           // required, total, data
    fecDecode: (nat, nat, seq<Share>) -> Option<ByteString>,
    mxorEncode: ByteString -> seq<ByteString>,
    mxorDecode: (Share, Share) -> Option<ByteString>)
  {
    function Crc(bs: ByteString): ByteString {
      BigEndian(crc(bs), CRC_LEN)
    }
  }

  /** `infectious.NewFEC` succeeds. */
  predicate ValidFec(required: int, total: int) {
    1 <= required <= total <= 256
  }

  function RoundUp(n: nat, multiple: nat): nat
    requires multiple > 0
  {
    ((n + multiple - 1) / multiple) * multiple
  }

  function DivideRoundUp(n: nat, divisor: nat): nat
    requires divisor > 0
  {
    (n + divisor - 1) / divisor
  }

  ghost predicate LawfulDigests(env: Env) {
    && (forall bs: ByteString :: |env.hash(bs)| == HASH_LEN)
    && (forall bs: ByteString :: env.crc(bs) < TWO_32)
    && (forall bs: ByteString :: |env.sign(bs)| == SIGNATURE_LEN)
  }

  /** A Reed-Solomon code yields `total` shares of the same length. */
  ghost predicate FecLengths(env: Env, required: nat, total: nat) {
    required > 0 &&
    forall data: ByteString | |data| % required == 0 ::
      && |env.fecEncode(required, total, data)| == total
      && (forall i | 0 <= i < total :: |env.fecEncode(required, total, data)[i]| == |data| / required)
  }

  /** Shares in order of their numbers, each one unchanged. */
  predicate GoodShares(encoded: seq<ByteString>, picked: seq<Share>) {
    && (forall j | 0 <= j < |picked| ::
          picked[j].number < |encoded| && picked[j].data == encoded[picked[j].number])
    && (forall i, j | 0 <= i < j < |picked| :: picked[i].number < picked[j].number)
  }

  /** Any `required` shares give the data back. */
  ghost predicate FecDecodes(env: Env, required: nat, total: nat) {
    required > 0 &&
    forall data: ByteString, picked: seq<Share> |
      |data| % required == 0 && |picked| >= required
      && GoodShares(env.fecEncode(required, total, data), picked) ::
      env.fecDecode(required, total, picked) == Some(data)
  }

  /** `n` blocks of length `len`. */
  function Blocks(data: ByteString, len: nat, n: nat): (blocks: seq<ByteString>)
    requires |data| == n * len
    ensures |blocks| == n && forall b <- blocks :: |b| == len
    decreases n
  {
    if n == 0 then []
    else
      assert n * len == (n - 1) * len + len;
      [data[..len]] + Blocks(data[len..], len, n - 1)
  }

  function DataBlocks(n: nat, data: ByteString): (blocks: seq<ByteString>)
    requires n > 0 && |data| % n == 0
    ensures |blocks| == n && forall b <- blocks :: |b| == |data| / n
  {
    QuotientBounds(|data|, n);
    Blocks(data, |data| / n, n)
  }

  /** The first shares are the blocks of the data themselves. */
  ghost predicate Systematic(env: Env, required: nat, total: nat) {
    required > 0 &&
    forall data: ByteString | |data| % required == 0 ::
      DataBlocks(required, data) <= env.fecEncode(required, total, data)
  }

  const MXOR_REQUIRED: nat := 2
  const MXOR_TOTAL: nat := 6

  /** The mxor code pads to a multiple of six and yields six shares of half that
      length; any two of them give the padded data back. */
  ghost predicate LawfulMxor(env: Env) {
    forall data: ByteString | 0 < |data| < TWO_32 ::
      && |env.mxorEncode(data)| == MXOR_TOTAL
      && (forall i | 0 <= i < MXOR_TOTAL :: |env.mxorEncode(data)[i]| == RoundUp(|data|, MXOR_TOTAL) / MXOR_REQUIRED)
      && (forall i, j | 0 <= i < j < MXOR_TOTAL ::
            env.mxorDecode(Share(i, env.mxorEncode(data)[i]), Share(j, env.mxorEncode(data)[j]))
              == Some(data + Zeros(RoundUp(|data|, MXOR_TOTAL) - |data|)))
  }

  /** Everything the containers need besides the code of the shards themselves. */
  ghost predicate Lawful(env: Env) {
    LawfulDigests(env) && FecLengths(env, 4, 5) && FecLengths(env, 25, 26)
  }

  lemma CrcValue(env: Env, bs: ByteString)
    requires Lawful(env)
    ensures |env.Crc(bs)| == 4 && Value(env.Crc(bs)) == env.crc(bs)
  {
    Widths();
    ValueOfBigEndian(env.crc(bs), 4);
  }

  // ---- reedSolomon.go ----

  /** Go's integer division truncates. */
  function GoDiv(a: int, b: int): int
    requires b != 0
  {
    if a >= 0 then (if b > 0 then a / b else -(a / -b))
    else (if b > 0 then -(-a / b) else -a / -b)
  }

  function ShareSize(inputSize: int, required: int): int
    requires required != 0
  {
    GoDiv(inputSize + required - 1, required)
  }

  function ExtendedToMultipleOf(multiple: nat, input: ByteString): (output: ByteString)
    requires multiple > 0
    ensures |output| == RoundUp(|input|, multiple) && |output| % multiple == 0
  {
    var rem := |input| % multiple;
    ExtensionLength(|input|, multiple);
    if rem == 0 then input else input + Zeros(multiple - rem)
  }

  lemma ExtensionLength(n: nat, multiple: nat)
    requires multiple > 0
    ensures RoundUp(n, multiple) == if n % multiple == 0 then n else n + (multiple - n % multiple)
    ensures RoundUp(n, multiple) % multiple == 0
    ensures RoundUp(n, multiple) / multiple == DivideRoundUp(n, multiple)
  {
    var c := DivideRoundUp(n, multiple);
    assert RoundUp(n, multiple) == multiple * c;
    CeilBounds(n, multiple);
    QuotientBounds(n, multiple);
    MulMod(c, multiple);
    MulDivCancel(multiple, c);
    if n % multiple != 0 {
      var q := n / multiple;
      assert multiple * (q + 1) == multiple * q + multiple;
      CeilUnique(n, multiple, q + 1);
    }
  }

  lemma EncodedLength(env: Env, required: nat, total: nat, data: ByteString, i: nat)
    requires FecLengths(env, required, total) && |data| % required == 0 && i < total
    ensures |env.fecEncode(required, total, data)| == total
    ensures |env.fecEncode(required, total, data)[i]| == |data| / required
  {
  }

  /** The single parity share of `GenerateRSIParity(input, dataShards, 1)`. */
  function RSIParity(env: Env, input: ByteString, dataShards: nat): (parity: ByteString)
    requires FecLengths(env, dataShards, dataShards + 1)
    ensures |parity| == DivideRoundUp(|input|, dataShards)
  {
    var extended := ExtendedToMultipleOf(dataShards, input);
    ExtensionLength(|input|, dataShards);
    EncodedLength(env, dataShards, dataShards + 1, extended, dataShards);
    env.fecEncode(dataShards, dataShards + 1, extended)[dataShards]
  }

  /** What the parity is for: any one of the blocks of the input can be missing.  Every
      choice of as many shares as there are blocks, of the blocks and the parity, gives
      the input back, followed by the padding. */
  lemma ParityCorrects(env: Env, input: ByteString, dataShards: nat, picked: seq<Share>)
    requires FecLengths(env, dataShards, dataShards + 1) && FecDecodes(env, dataShards, dataShards + 1)
    requires Systematic(env, dataShards, dataShards + 1) && |picked| >= dataShards
    requires GoodShares(
      DataBlocks(dataShards, ExtendedToMultipleOf(dataShards, input)) + [RSIParity(env, input, dataShards)], picked)
    ensures var decoded := env.fecDecode(dataShards, dataShards + 1, picked);
      && decoded.Some? && input <= decoded.value
      && |decoded.value| == RoundUp(|input|, dataShards)
      && forall i | |input| <= i < |decoded.value| :: decoded.value[i] == 0
  {
    ExtendedInput(dataShards, input);
    ParityCompletes(env, input, dataShards);
    hide GoodShares, DataBlocks, RoundUp, ExtendedToMultipleOf, RSIParity, Systematic, FecLengths, FecDecodes;
    Decodes(env, dataShards, dataShards + 1, ExtendedToMultipleOf(dataShards, input), picked);
  }

  lemma ExtendedInput(multiple: nat, input: ByteString)
    requires multiple > 0
    ensures var extended := ExtendedToMultipleOf(multiple, input);
      input <= extended && forall i | |input| <= i < |extended| :: extended[i] == 0
  {
    hide RoundUp;
  }

  /** Blocks and parity are all the shares of the extended input. */
  lemma ParityCompletes(env: Env, input: ByteString, dataShards: nat)
    requires FecLengths(env, dataShards, dataShards + 1) && Systematic(env, dataShards, dataShards + 1)
    ensures var extended := ExtendedToMultipleOf(dataShards, input);
      DataBlocks(dataShards, extended) + [RSIParity(env, input, dataShards)]
        == env.fecEncode(dataShards, dataShards + 1, extended)
  {
    var extended := ExtendedToMultipleOf(dataShards, input);
    SharesCompleted(env, dataShards, extended);
    hide DataBlocks, RoundUp, ExtendedToMultipleOf, Systematic;
  }

  lemma SharesCompleted(env: Env, dataShards: nat, data: ByteString)
    requires FecLengths(env, dataShards, dataShards + 1) && Systematic(env, dataShards, dataShards + 1)
    requires |data| % dataShards == 0
    ensures var shares := env.fecEncode(dataShards, dataShards + 1, data);
      |shares| == dataShards + 1 && shares == DataBlocks(dataShards, data) + [shares[dataShards]]
  {
    hide DataBlocks, FecLengths, Systematic;
    var shares := env.fecEncode(dataShards, dataShards + 1, data);
    EncodedLength(env, dataShards, dataShards + 1, data, dataShards);
    BlocksFirst(env, dataShards, dataShards + 1, data);
    assert shares == shares[..dataShards] + [shares[dataShards]];
  }

  lemma BlocksFirst(env: Env, required: nat, total: nat, data: ByteString)
    requires Systematic(env, required, total) && |data| % required == 0
    ensures DataBlocks(required, data) <= env.fecEncode(required, total, data)
  {
    hide DataBlocks;
  }

  lemma Decodes(env: Env, required: nat, total: nat, data: ByteString, picked: seq<Share>)
    requires FecDecodes(env, required, total) && |data| % required == 0 && |picked| >= required
    requires GoodShares(env.fecEncode(required, total, data), picked)
    ensures env.fecDecode(required, total, picked) == Some(data)
  {
    hide GoodShares;
  }
}
