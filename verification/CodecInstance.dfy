/** One codec that keeps every law asked of it, so that the theorems about shards speak
    of something: single-parity erasure codes of any size, a (2, 6) code over the field
    of 256 elements, and digests of the right lengths. */
module CodecInstance {
  import opened Arithmetic
  import opened Bytes
  import opened Codecs
  import opened Collections
  import opened FileContainer
  import opened ShardHeaders
  import opened ShardTransfer
  import opened ShardsContainer
  import opened ShardPipeline

  // ---- the erasure code: the blocks of the data, and their sum ----

  lemma {:induction false} BlocksInjective(d: ByteString, e: ByteString, len: nat, n: nat)
    requires |d| == n * len == |e| && Blocks(d, len, n) == Blocks(e, len, n)
    ensures d == e
    decreases n
  {
    if n == 0 {
    } else {
      assert n * len == (n - 1) * len + len;
      var bs, cs := Blocks(d, len, n), Blocks(e, len, n);
      assert bs[0] == d[..len] && bs[1..] == Blocks(d[len..], len, n - 1);
      assert cs[0] == e[..len] && cs[1..] == Blocks(e[len..], len, n - 1);
      BlocksInjective(d[len..], e[len..], len, n - 1);
      assert d == d[..len] + d[len..] && e == e[..len] + e[len..];
    }
  }

  function ColumnSum(blocks: seq<ByteString>, j: nat): nat
    requires forall b <- blocks :: j < |b|
  {
    if blocks == [] then 0 else blocks[0][j] + ColumnSum(blocks[1..], j)
  }

  function Parity(blocks: seq<ByteString>, len: nat): (parity: ByteString)
    requires forall b <- blocks :: |b| == len
    ensures |parity| == len
  {
    seq(len, j requires 0 <= j < len => ColumnSum(blocks, j) % 256)
  }

  /** The blocks come first; every further share is their parity. */
  function Shares(blocks: seq<ByteString>, len: nat, total: nat): seq<ByteString>
    requires forall b <- blocks :: |b| == len
  {
    seq(total, i requires 0 <= i < total => if i < |blocks| then blocks[i] else Parity(blocks, len))
  }

  function SumEncode(required: nat, total: nat, data: ByteString): seq<ByteString> {
    if required > 0 && |data| % required == 0 then
      Shares(DataBlocks(required, data), |data| / required, total)
    else []
  }

  /** Some data of which all the shares at hand come. */
  ghost predicate Explains(required: nat, total: nat, picked: seq<Share>, data: ByteString) {
    && required > 0 && |data| % required == 0
    && GoodShares(SumEncode(required, total, data), picked)
  }

  ghost function SumDecode(required: nat, total: nat, picked: seq<Share>): Option<ByteString> {
    if exists data :: Explains(required, total, picked, data)
    then var data :| Explains(required, total, picked, data); Some(data)
    else None
  }

  /** Two lists of blocks that differ in one block at most do not differ when their
      column sums agree. */
  lemma {:induction false} SumDetermines(bs: seq<ByteString>, cs: seq<ByteString>, m: nat, j: nat)
    requires m < |bs| == |cs| && (forall b <- bs :: j < |b|) && (forall c <- cs :: j < |c|)
    requires forall i | 0 <= i < |bs| && i != m :: bs[i] == cs[i]
    ensures ColumnSum(bs, j) + cs[m][j] == ColumnSum(cs, j) + bs[m][j]
  {
    if m == 0 {
      assert bs[1..] == cs[1..];
    } else {
      SumDetermines(bs[1..], cs[1..], m - 1, j);
    }
  }

  lemma SameByte(x: Byte, y: Byte, p: nat, q: nat)
    requires p + y == q + x && p % 256 == q % 256
    ensures x == y
  {
  }

  lemma BlockDetermined(bs: seq<ByteString>, cs: seq<ByteString>, len: nat, m: nat)
    requires m < |bs| == |cs| && (forall b <- bs :: |b| == len) && (forall c <- cs :: |c| == len)
    requires forall i | 0 <= i < |bs| && i != m :: bs[i] == cs[i]
    requires Parity(bs, len) == Parity(cs, len)
    ensures bs == cs
  {
    forall j | 0 <= j < len ensures bs[m][j] == cs[m][j] {
      SumDetermines(bs, cs, m, j);
      assert Parity(bs, len)[j] == Parity(cs, len)[j];
      SameByte(bs[m][j], cs[m][j], ColumnSum(bs, j), ColumnSum(cs, j));
    }
    assert bs[m] == cs[m];
  }

  function Numbers(picked: seq<Share>): set<nat> {
    if picked == [] then {} else Numbers(picked[..|picked| - 1]) + {picked[|picked| - 1].number}
  }

  lemma {:induction false} InNumbers(picked: seq<Share>, n: nat)
    ensures n in Numbers(picked) <==> exists j | 0 <= j < |picked| :: picked[j].number == n
  {
    if picked == [] {
    } else {
      var front := picked[..|picked| - 1];
      InNumbers(front, n);
      if j :| 0 <= j < |front| && front[j].number == n {
        assert picked[j].number == n;
      }
    }
  }

  lemma {:induction false} NumbersCount(encoded: seq<ByteString>, picked: seq<Share>)
    requires GoodShares(encoded, picked)
    ensures |Numbers(picked)| == |picked|
  {
    if picked == [] {
    } else {
      var front, last := picked[..|picked| - 1], picked[|picked| - 1];
      NumbersCount(encoded, front);
      InNumbers(front, last.number);
    }
  }

  function Below(n: nat): (all: set<nat>)
    ensures |all| == n && forall i: nat :: i in all <==> i < n
  {
    if n == 0 then {} else Below(n - 1) + {n - 1}
  }

  lemma {:induction false} NumbersBelow(encoded: seq<ByteString>, picked: seq<Share>)
    requires GoodShares(encoded, picked)
    ensures Numbers(picked) <= Below(|encoded|)
  {
    if picked == [] {
    } else {
      NumbersBelow(encoded, picked[..|picked| - 1]);
    }
  }

  /** Of as many numbers as there are picks, or one more, one is missing at most. */
  lemma Missing(encoded: seq<ByteString>, picked: seq<Share>, a: nat, b: nat)
    requires GoodShares(encoded, picked) && a < |encoded| && b < |encoded|
    requires a !in Numbers(picked) && b !in Numbers(picked)
    ensures |encoded| > |picked|
    ensures |encoded| <= |picked| + 1 ==> a == b
  {
    hide GoodShares, Numbers, Below;
    NumbersCount(encoded, picked);
    NumbersBelow(encoded, picked);
    var numbers, all := Numbers(picked), Below(|encoded|);
    SubsetCount(numbers, all - {a, b});
    SubsetCount(numbers, all - {a});
  }

  lemma SharesAgree(d: seq<ByteString>, e: seq<ByteString>, picked: seq<Share>, i: nat)
    requires GoodShares(d, picked) && GoodShares(e, picked) && i in Numbers(picked)
    ensures i < |d| && i < |e| && d[i] == e[i]
  {
    InNumbers(picked, i);
    var j :| 0 <= j < |picked| && picked[j].number == i;
  }

  /** As many shares as there are blocks determine the blocks. */
  lemma SharesDetermine(bs: seq<ByteString>, cs: seq<ByteString>, len: nat, total: nat, picked: seq<Share>)
    requires |bs| == |cs| <= total <= |bs| + 1 && |picked| >= |bs|
    requires (forall b <- bs :: |b| == len) && (forall c <- cs :: |c| == len)
    requires GoodShares(Shares(bs, len, total), picked) && GoodShares(Shares(cs, len, total), picked)
    ensures bs == cs
  {
    hide Parity, GoodShares, Numbers;
    var ds, es := Shares(bs, len, total), Shares(cs, len, total);
    forall i | 0 <= i < |bs| && i in Numbers(picked) ensures bs[i] == cs[i] {
      SharesAgree(ds, es, picked, i);
      assert ds[i] == bs[i] && es[i] == cs[i];
    }
    if m :| 0 <= m < |bs| && m !in Numbers(picked) {
      forall i | 0 <= i < |bs| && i != m ensures bs[i] == cs[i] {
        if i !in Numbers(picked) {
          Missing(ds, picked, m, i);
        }
      }
      Missing(ds, picked, m, m);
      if |bs| !in Numbers(picked) {
        Missing(ds, picked, m, |bs|);
      }
      SharesAgree(ds, es, picked, |bs|);
      BlockDetermined(bs, cs, len, m);
    }
  }

  /** At most one data fits `required` shares of a code with one parity share or none. */
  lemma ExplanationUnique(required: nat, total: nat, picked: seq<Share>, d: ByteString, e: ByteString)
    requires Explains(required, total, picked, d) && Explains(required, total, picked, e)
    requires required <= total <= required + 1 && |picked| >= required
    ensures d == e
  {
    hide Shares;
    QuotientBounds(|d|, required);
    QuotientBounds(|e|, required);
    SameLength(required, total, picked, d, e);
    var len := |d| / required;
    SharesDetermine(Blocks(d, len, required), Blocks(e, len, required), len, total, picked);
    BlocksInjective(d, e, len, required);
  }

  lemma SumLengths(required: nat, total: nat, data: ByteString)
    requires required > 0 && |data| % required == 0
    ensures |SumEncode(required, total, data)| == total
    ensures forall i | 0 <= i < total :: |SumEncode(required, total, data)[i]| == |data| / required
  {
    hide Parity;
    QuotientBounds(|data|, required);
    var len := |data| / required;
    SharesLengths(Blocks(data, len, required), len, total);
  }

  lemma SharesLengths(blocks: seq<ByteString>, len: nat, total: nat)
    requires forall b <- blocks :: |b| == len
    ensures |Shares(blocks, len, total)| == total
    ensures forall i | 0 <= i < total :: |Shares(blocks, len, total)[i]| == len
  {
    forall i | 0 <= i < total ensures |Shares(blocks, len, total)[i]| == len {
      var share := Shares(blocks, len, total)[i];
      assert share == if i < |blocks| then blocks[i] else Parity(blocks, len);
      assert share in blocks || share == Parity(blocks, len);
    }
  }

  lemma SameLength(required: nat, total: nat, picked: seq<Share>, d: ByteString, e: ByteString)
    requires Explains(required, total, picked, d) && Explains(required, total, picked, e) && |picked| > 0
    ensures |d| / required == |e| / required
  {
    hide SumEncode;
    SumLengths(required, total, d);
    SumLengths(required, total, e);
    assert picked[0].data == SumEncode(required, total, d)[picked[0].number];
    assert picked[0].data == SumEncode(required, total, e)[picked[0].number];
  }

  // ---- the mxor code: a, b, and a + c * b for four elements c of the field ----

  /** Addition in that field. */
  function Plus(a: bv8, b: bv8): bv8 {
    a ^ b
  }

  /** Multiplication by the generator of the field with 256 elements. */
  function Times2(b: bv8): bv8 {
    var top := b >> 7;
    (b << 1) ^ top ^ (top << 1) ^ (top << 3) ^ (top << 4)
  }

  function Scale(p: nat, b: bv8): bv8 {
    if p == 0 then 0 else if p == 1 then b else Times2(Scale(p - 1, b))
  }

  lemma Times2Linear(a: bv8, b: bv8)
    ensures Times2(Plus(a, b)) == Plus(Times2(a), Times2(b))
  {
  }

  lemma Times2Injective(a: bv8, b: bv8)
    requires Times2(a) == Times2(b)
    ensures a == b
  {
  }

  lemma Times2Zero()
    ensures Times2(0) == 0
  {
  }

  lemma ZeroPlus()
    ensures Plus(0, 0) == 0
  {
  }

  lemma {:induction false} ScaleLinear(p: nat, a: bv8, b: bv8)
    ensures Scale(p, Plus(a, b)) == Plus(Scale(p, a), Scale(p, b))
  {
    hide Times2, Plus;
    ZeroPlus();
    if p <= 1 {
    } else {
      ScaleLinear(p - 1, a, b);
      Times2Linear(Scale(p - 1, a), Scale(p - 1, b));
    }
  }

  lemma SmallScales(e: bv8)
    ensures e == Times2(e) || e == Times2(Times2(e)) || e == Times2(Times2(Times2(e))) ==> e == 0
  {
  }

  /** The four non-zero coefficients differ. */
  lemma {:induction false} ScaleApart(p: nat, q: nat, e: bv8)
    requires p < q < 5 && Scale(p, e) == Scale(q, e)
    ensures e == 0
  {
    hide Times2;
    assert Scale(1, e) == e && Scale(2, e) == Times2(e);
    assert Scale(3, e) == Times2(Scale(2, e)) && Scale(4, e) == Times2(Scale(3, e));
    if p > 1 {
      Times2Injective(Scale(p - 1, e), Scale(q - 1, e));
      ScaleApart(p - 1, q - 1, e);
    } else if p == 1 {
      SmallScales(e);
    } else if q > 1 {
      Times2Zero();
      Times2Injective(Scale(q - 1, e), 0);
      ScaleApart(0, q - 1, e);
    }
  }

  /** Share 0 is `a`, share 1 is `b`, the others are `a` plus a multiple of `b`. */
  function Mix(i: nat, a: bv8, b: bv8): bv8 {
    if i == 1 then b else Plus(a, Scale(if i == 0 then 0 else i - 1, b))
  }

  lemma Regrouped(a: bv8, b: bv8, c: bv8, d: bv8)
    requires Plus(a, b) == Plus(c, d)
    ensures Plus(a, c) == Plus(b, d)
  {
  }

  lemma Zero(a: bv8, b: bv8)
    ensures Plus(a, b) == 0 <==> a == b
  {
  }

  lemma MixDetermines(i: nat, j: nat, a: bv8, b: bv8, c: bv8, d: bv8)
    requires i < j < 6 && Mix(i, a, b) == Mix(i, c, d) && Mix(j, a, b) == Mix(j, c, d)
    ensures a == c && b == d
  {
    hide Scale, Plus;
    var p, q := if i == 0 then 0 else i - 1, j - 1;
    if i == 1 {
      Cancel(a, Scale(q, b), c);
    } else if j == 1 {
      Cancel(a, Scale(p, b), c);
    } else {
      Regrouped(a, Scale(p, b), c, Scale(p, d));
      Regrouped(a, Scale(q, b), c, Scale(q, d));
      ScaleLinear(p, b, d);
      ScaleLinear(q, b, d);
      ScaleApart(p, q, Plus(b, d));
      Zero(b, d);
      Cancel(a, Scale(p, b), c);
    }
  }

  lemma Cancel(a: bv8, s: bv8, c: bv8)
    requires Plus(a, s) == Plus(c, s)
    ensures a == c
  {
  }

  /** The bits of half a byte. */
  function Half(n: nat): bv8
    requires n < 16
  {
    n as bv8
  }

  predicate IsHalf(b: bv8) {
    b & 0xf0 == 0
  }

  function Halves(a: bv8, b: bv8): bv8 {
    (a << 4) | b
  }

  function Bits(x: Byte): bv8 {
    Halves(Half(x / 16), Half(x % 16))
  }

  lemma HalfIsHalf(n: nat)
    requires n < 16
    ensures IsHalf(Half(n))
  {
  }

  lemma HalfInjective(m: nat, n: nat)
    requires m < 16 && n < 16 && Half(m) == Half(n)
    ensures m == n
  {
    HalfAsInt(m);
    HalfAsInt(n);
  }

  lemma HalfAsInt(n: nat)
    requires n < 16
    ensures Half(n) as int == n
  {
  }

  lemma HalvesApart(a: bv8, b: bv8, c: bv8, d: bv8)
    requires IsHalf(a) && IsHalf(b) && IsHalf(c) && IsHalf(d) && Halves(a, b) == Halves(c, d)
    ensures a == c && b == d
  {
  }

  lemma BitsInjective(x: Byte, y: Byte)
    requires Bits(x) == Bits(y)
    ensures x == y
  {
    hide Half, IsHalf, Halves;
    HalfIsHalf(x / 16);
    HalfIsHalf(x % 16);
    HalfIsHalf(y / 16);
    HalfIsHalf(y % 16);
    HalvesApart(Half(x / 16), Half(x % 16), Half(y / 16), Half(y % 16));
    HalfInjective(x / 16, y / 16);
    HalfInjective(x % 16, y % 16);
  }

  function MixBytes(i: nat, a: Byte, b: Byte): Byte {
    Mix(i, Bits(a), Bits(b)) as int
  }

  lemma MixBytesDetermine(i: nat, j: nat, a: Byte, b: Byte, c: Byte, d: Byte)
    requires i < j < 6 && MixBytes(i, a, b) == MixBytes(i, c, d) && MixBytes(j, a, b) == MixBytes(j, c, d)
    ensures a == c && b == d
  {
    hide Mix, Bits;
    MixDetermines(i, j, Bits(a), Bits(b), Bits(c), Bits(d));
    BitsInjective(a, c);
    BitsInjective(b, d);
  }

  /** Share `i` of two halves of the same length. */
  function MixHalves(i: nat, front: ByteString, back: ByteString): (share: ByteString)
    requires |front| == |back|
    ensures |share| == |front|
  {
    seq(|front|, k requires 0 <= k < |front| => MixBytes(i, front[k], back[k]))
  }

  function MxorShare(i: nat, padded: ByteString): (share: ByteString)
    requires |padded| % 2 == 0
    ensures |share| == |padded| / 2
  {
    MixHalves(i, padded[..|padded| / 2], padded[|padded| / 2..])
  }

  function PaddedToSix(data: ByteString): (padded: ByteString)
    ensures |padded| == RoundUp(|data|, MXOR_TOTAL) && |padded| % 2 == 0
    ensures padded == data + Zeros(|padded| - |data|)
  {
    ExtensionLength(|data|, MXOR_TOTAL);
    data + Zeros(RoundUp(|data|, MXOR_TOTAL) - |data|)
  }

  function MxorEncode(data: ByteString): seq<ByteString> {
    seq(MXOR_TOTAL, i requires 0 <= i < MXOR_TOTAL => MxorShare(i, PaddedToSix(data)))
  }

  ghost predicate MxorExplains(s: Share, t: Share, padded: ByteString) {
    |padded| % 2 == 0 && MxorShare(s.number, padded) == s.data && MxorShare(t.number, padded) == t.data
  }

  ghost function MxorDecode(s: Share, t: Share): Option<ByteString> {
    if exists padded :: MxorExplains(s, t, padded)
    then var padded :| MxorExplains(s, t, padded); Some(padded)
    else None
  }

  lemma HalvesDetermined(i: nat, j: nat, a: ByteString, b: ByteString, c: ByteString, d: ByteString)
    requires i < j < 6 && |a| == |b| == |c| == |d|
    requires MixHalves(i, a, b) == MixHalves(i, c, d) && MixHalves(j, a, b) == MixHalves(j, c, d)
    ensures a == c && b == d
  {
    hide MixBytes;
    forall k | 0 <= k < |a| ensures a[k] == c[k] && b[k] == d[k] {
      assert MixHalves(i, a, b)[k] == MixHalves(i, c, d)[k] && MixHalves(j, a, b)[k] == MixHalves(j, c, d)[k];
      MixBytesDetermine(i, j, a[k], b[k], c[k], d[k]);
    }
  }

  lemma MxorUnique(s: Share, t: Share, d: ByteString, e: ByteString)
    requires s.number < t.number < 6 && MxorExplains(s, t, d) && MxorExplains(s, t, e)
    ensures d == e
  {
    hide MixHalves;
    var m := |d| / 2;
    assert |e| == |d|;
    HalvesDetermined(s.number, t.number, d[..m], d[m..], e[..m], e[m..]);
    assert d == d[..m] + d[m..] && e == e[..m] + e[m..];
  }

  // ---- the instance ----

  ghost const SAMPLE: Env := Env(
    _ => Zeros(HASH_LEN),
    _ => 0,
    _ => Zeros(SIGNATURE_LEN),
    SumEncode,
    SumDecode,
    MxorEncode,
    MxorDecode)

  lemma SumLaws(required: nat, total: nat)
    requires 0 < required <= total <= required + 1
    ensures FecLengths(SAMPLE, required, total) && FecDecodes(SAMPLE, required, total)
    ensures Systematic(SAMPLE, required, total)
  {
    hide SumEncode;
    forall data: ByteString | |data| % required == 0
      ensures DataBlocks(required, data) <= SumEncode(required, total, data)
    {
      SumSystematic(required, total, data);
    }
    forall data: ByteString | |data| % required == 0
      ensures |SumEncode(required, total, data)| == total
      ensures forall i | 0 <= i < total :: |SumEncode(required, total, data)[i]| == |data| / required
    {
      SumLengths(required, total, data);
    }
    forall data: ByteString, picked: seq<Share> |
      |data| % required == 0 && |picked| >= required && GoodShares(SumEncode(required, total, data), picked)
      ensures SumDecode(required, total, picked) == Some(data)
    {
      assert Explains(required, total, picked, data);
      ExplanationUnique(required, total, picked, data, SumDecode(required, total, picked).value);
    }
  }

  lemma SumSystematic(required: nat, total: nat, data: ByteString)
    requires 0 < required <= total && |data| % required == 0
    ensures DataBlocks(required, data) <= SumEncode(required, total, data)
  {
    hide DataBlocks, Parity;
  }

  lemma MxorLaws()
    ensures LawfulMxor(SAMPLE)
  {
    hide MxorShare;
    forall data: ByteString, i, j | 0 <= i < j < MXOR_TOTAL
      ensures MxorDecode(Share(i, MxorEncode(data)[i]), Share(j, MxorEncode(data)[j])) == Some(PaddedToSix(data))
    {
      var s, t := Share(i, MxorEncode(data)[i]), Share(j, MxorEncode(data)[j]);
      assert MxorExplains(s, t, PaddedToSix(data));
      MxorUnique(s, t, PaddedToSix(data), MxorDecode(s, t).value);
    }
  }

  lemma SampleLawful()
    ensures Lawful(SAMPLE)
  {
    SumLaws(4, 5);
    SumLaws(25, 26);
  }

  /** Every upload that an encoder accepts, with at most one parity share, is one that
      the theorem about downloads speaks of. */
  lemma SamplePublishes(o: Origin)
    requires Lawful(SAMPLE) && Encodable(o.kind, o.required, o.total, |FileOf(SAMPLE, o)|)
    requires o.kind.Mxor? || o.total <= o.required + 1
    ensures Published(SAMPLE, o)
  {
    hide FileOf, LawfulMxor, FecLengths, FecDecodes;
    if o.kind.Mxor? {
      MxorLaws();
    } else {
      SumLaws(o.required, o.total);
    }
  }

  lemma PositiveLength(fct: Byte, payloadLen: nat)
    requires KnownType(fct)
    ensures ContainerLen(fct, payloadLen) > 0
  {
  }

  /** Files of any content below 4 GB can be published with each kind of container. */
  lemma SampleUploads(kind: Kind, payload: ByteString)
    requires ContainerLen(ContainerTypeOf(kind), |payload|) < MXOR_LIMIT
    ensures Published(SAMPLE, Origin(kind, 2, if kind.Mxor? then 6 else 3, payload))
  {
    hide Container, ContainerLen, Lawful, LawfulCode, FecLengths, LawfulMxor, Published, SAMPLE;
    SampleLawful();
    ContainerLength(SAMPLE, ContainerTypeOf(kind), payload);
    PositiveLength(ContainerTypeOf(kind), |payload|);
    SamplePublishes(Origin(kind, 2, if kind.Mxor? then 6 else 3, payload));
  }

  /** A provider has a copy of every shard that a header can describe. */
  lemma CopiesExist(env: Env, o: Origin, i: nat, spSign: ByteString -> ByteString)
    requires Published(env, o) && i < o.total && HeaderOf(env, o, i).NumRequired() > 0
    ensures exists file :: StoredCopy(env, o, i, file)
  {
    hide Container, LawfulCode, Lawful, ToBytes, Parse, Received, Wire, ShardOf, HeaderOf, Encodable;
    ProperShard(env, o, i);
    ShardDelivered(env, spSign, HeaderOf(env, o, i), ShardOf(env, o, i));
    var file := Received(env, spSign, Wire(env, ShardOf(env, o, i))).value.file;
    assert StoredBy(env, o, i, file, spSign);
    assert StoredCopy(env, o, i, file);
  }

  /** Honest copies of the first `n` shards of an upload. */
  lemma {:induction false} HonestMap(env: Env, o: Origin, n: nat) returns (shardMap: map<nat, ByteString>)
    requires Published(env, o) && n <= o.total && forall i | 0 <= i < n :: HeaderOf(env, o, i).NumRequired() > 0
    ensures Honest(env, o, shardMap) && shardMap.Keys == Below(n) && |shardMap| == n
  {
    hide Published, StoredCopy, HeaderOf;
    if n == 0 {
      shardMap := map[];
    } else {
      var before := HonestMap(env, o, n - 1);
      CopiesExist(env, o, n - 1, bs => bs);
      var file :| StoredCopy(env, o, n - 1, file);
      shardMap := before[n - 1 := file];
      assert shardMap.Keys == before.Keys + {n - 1};
    }
    assert |shardMap| == |shardMap.Keys|;
  }

  /** A browser upload with 256 shards, each of them at a provider: more than enough for
      the code, and still `DownloadSharded` cannot restore it. */
  lemma LargeBrowserUpload(payload: ByteString) returns (o: Origin, shardMap: map<nat, ByteString>)
    requires ContainerLen(BROWSER_OPTIMIZED, |payload|) < TWO_63
    ensures o == Origin(Bors, 255, 256, payload) && Lawful(SAMPLE)
    ensures Honest(SAMPLE, o, shardMap) && |shardMap| == 256 > o.required && !TotalFits(o)
  {
    hide Container, ContainerLen, Lawful, LawfulCode, FecLengths, Published, SAMPLE, Honest;
    o := Origin(Bors, 255, 256, payload);
    SampleLawful();
    ContainerLength(SAMPLE, BROWSER_OPTIMIZED, payload);
    SamplePublishes(o);
    assert forall i | 0 <= i < 256 :: HeaderOf(SAMPLE, o, i).NumRequired() > 0;
    shardMap := HonestMap(SAMPLE, o, 256);
  }
}
