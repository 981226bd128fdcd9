/** The container of all shards of a file: the three encoders fill it, the three
    decoders read it. */
module ShardsContainer {
  import opened Arithmetic
  import opened Bytes
  import opened Codecs
  import opened FileContainer
  import opened ShardHeaders
  import opened ShardTransfer

  datatype Kind = Mxor | Bors | Aors

  type Slots = seq<Option<Shard>>

  /** The mxor code is used below this size only. */
  const MXOR_LIMIT: nat := 4_000_000_000

  function ContainerTypeOf(kind: Kind): Byte {
    if kind.Aors? then ARCHIVE_OPTIMIZED else BROWSER_OPTIMIZED
  }

  // ---- encoding ----

  /** The header of shard `i`; the byte fields of the browser header truncate. */
  function HeaderFor(kind: Kind, required: nat, total: nat, i: nat, fcLen: nat, fcHash: Hash32): ShardHeader
    requires i < total <= 256 && required <= 256 && fcLen < TWO_63
    requires kind.Mxor? ==> fcLen < TWO_32
  {
    match kind
    case Mxor => MxorHeader(0, i % 256, fcLen, fcHash)
    case Bors => BorsHeader(total % 256, required % 256, i % 256, fcLen, fcHash)
    case Aors => AorsHeader(total, required, i, fcLen, fcHash)
  }

  function Padded(required: nat, fileContainer: ByteString): (padded: ByteString)
    requires required > 0
    ensures |padded| % required == 0 && |padded| / required == ShareSize(|fileContainer|, required)
    ensures padded == fileContainer + Zeros(|padded| - |fileContainer|)
  {
    ShareSizeIsCeiling(|fileContainer|, required);
    MulMod(ShareSize(|fileContainer|, required), required);
    MulDivCancel(required, ShareSize(|fileContainer|, required));
    fileContainer + Zeros(required * ShareSize(|fileContainer|, required) - |fileContainer|)
  }

  /** Which parameters an encoder accepts. */
  predicate Encodable(kind: Kind, required: int, total: int, fcLen: nat) {
    if kind.Mxor? then required == MXOR_REQUIRED && total == MXOR_TOTAL && 0 < fcLen < MXOR_LIMIT
    else ValidFec(required, total) && fcLen < TWO_63
  }

  /** The code that the shards of a container come from. */
  ghost predicate LawfulCode(env: Env, kind: Kind, required: nat, total: nat) {
    if kind.Mxor? then LawfulMxor(env)
    else FecLengths(env, required, total) && FecDecodes(env, required, total)
  }

  function EncodedData(env: Env, kind: Kind, required: nat, total: nat, fileContainer: ByteString): seq<ByteString>
    requires required > 0
  {
    if kind.Mxor? then env.mxorEncode(fileContainer)
    else env.fecEncode(required, total, Padded(required, fileContainer))
  }

  function EncodedShard(
    env: Env, kind: Kind, required: nat, total: nat, fileContainer: ByteString, fcHash: Hash32, i: nat): Shard
    requires Lawful(env) && Encodable(kind, required, total, |fileContainer|) && i < total
    requires |EncodedData(env, kind, required, total, fileContainer)| == total
  {
    Shard(ToBytes(env, HeaderFor(kind, required, total, i, |fileContainer|, fcHash)),
          EncodedData(env, kind, required, total, fileContainer)[i])
  }

  // ---- decoding ----

  /** The shards that are present, in the order of their indices. */
  function Collected(slots: Slots): seq<Share> {
    if slots == [] then []
    else
      var i := |slots| - 1;
      Collected(slots[..i]) + (match slots[i] case None => [] case Some(sh) => [Share(i, sh.data)])
  }

  function FirstShard(slots: Slots): Option<Shard> {
    if slots == [] then None
    else if slots[0].Some? then slots[0]
    else FirstShard(slots[1..])
  }

  function OriginalData(env: Env, slots: Slots, fileContainer: ByteString): Result<ByteString> {
    match FirstShard(slots)
    case None => Rejected
    case Some(shard) =>
      var h :- Parse(env, shard.hdr);
      GetOriginalData(env, h.FileContainerLen(), h.fcHash, fileContainer)
  }

  /** What the code makes of the shards that are present. */
  function DecoderOutput(env: Env, kind: Kind, required: int, total: int, slots: Slots): Option<ByteString> {
    var shares := Collected(slots);
    if kind.Mxor? then
      if |shares| < 2 || |shares[0].data| != |shares[1].data| then None
      else env.mxorDecode(shares[0], shares[1])
    else if !ValidFec(required, total) then None
    else env.fecDecode(required, total, shares)
  }

  function Decoded(env: Env, kind: Kind, required: int, total: int, slots: Slots): Result<ByteString> {
    match DecoderOutput(env, kind, required, total, slots)
    case None => Rejected
    case Some(bytes) => OriginalData(env, slots, bytes)
  }

  // ---- the container ----

  class ShardsContainer {
    const kind: Kind
    const numTotal: int
    const numRequired: int
    var fileContainerHash: Hash32
    const shards: array<Option<Shard>>

    /** `make([]*Shard, total)` panics for a negative total. */
    constructor (kind: Kind, total: nat, needed: int)
      ensures this.kind == kind && numTotal == total && numRequired == needed
      ensures fresh(shards) && shards.Length == total && forall i | 0 <= i < total :: shards[i] == None
    {
      this.kind := kind;
      numTotal, numRequired := total, needed;
      fileContainerHash := Zeros(HASH_LEN);
      shards := new Option<Shard>[total](_ => None);
    }

    method SetShard(index: nat, shard: Shard) returns (r: Result<()>)
      modifies shards
      ensures index < shards.Length ==> r.Ok? && shards[..] == old(shards[..])[index := Some(shard)]
      ensures index >= shards.Length ==> r.Rejected? && shards[..] == old(shards[..])
    {
      if index >= shards.Length {
        return Rejected;
      }
      shards[index] := Some(shard);
      return Ok(());
    }

    /** Counts down and stops early. */
    method HaveAllNeededShards() returns (r: bool)
      ensures r <==> |Collected(shards[..])| >= numRequired
    {
      var numNeeded := numRequired;
      for i := 0 to shards.Length
        invariant numNeeded == numRequired - |Collected(shards[..i])|
        invariant i > 0 && shards[i - 1].Some? ==> numNeeded > 0
      {
        assert shards[..i + 1][..i] == shards[..i];
        if shards[i].Some? {
          numNeeded := numNeeded - 1;
          if numNeeded <= 0 {
            CollectedGrows(shards[..], i + 1);
            return true;
          }
        }
      }
      assert shards[..shards.Length] == shards[..];
      return numNeeded <= 0;
    }

    method GetFirstShard() returns (r: Option<Shard>)
      ensures r == FirstShard(shards[..])
    {
      for i := 0 to shards.Length
        invariant FirstShard(shards[..]) == FirstShard(shards[i..])
      {
        assert shards[i..][1..] == shards[i + 1..];
        if shards[i].Some? {
          return shards[i];
        }
      }
      return None;
    }

    /** The callback of the codec stores share after share. */
    method Encode(env: Env, fileContainer: ByteString) returns (r: Result<()>)
      requires Lawful(env) && shards.Length == numTotal
      requires kind.Mxor? ==> numRequired == MXOR_REQUIRED && numTotal == MXOR_TOTAL && LawfulMxor(env)
      requires !kind.Mxor? && ValidFec(numRequired, numTotal) ==> FecLengths(env, numRequired, numTotal)
      requires 0 < |fileContainer| < TWO_63
      modifies shards
      ensures r.Ok? <==> Encodable(kind, numRequired, numTotal, |fileContainer|)
      ensures r.Ok? ==>
        && |EncodedData(env, kind, numRequired, numTotal, fileContainer)| == numTotal
        && forall i | 0 <= i < numTotal ::
             shards[i] == Some(EncodedShard(env, kind, numRequired, numTotal, fileContainer, fileContainerHash, i))
    {
      hide ToBytes, Padded;
      if kind.Mxor? {
        if |fileContainer| >= MXOR_LIMIT {
          return Rejected;
        }
      } else if !ValidFec(numRequired, numTotal) {
        return Rejected;
      }
      var encoded := EncodedData(env, kind, numRequired, numTotal, fileContainer);
      for i := 0 to shards.Length
        invariant forall j | 0 <= j < i ::
          shards[j] == Some(EncodedShard(env, kind, numRequired, numTotal, fileContainer, fileContainerHash, j))
      {
        var h := HeaderFor(kind, numRequired, numTotal, i, |fileContainer|, fileContainerHash);
        shards[i] := Some(Shard(ToBytes(env, h), encoded[i]));
      }
      return Ok(());
    }

    method CollectShares() returns (shares: seq<Share>)
      ensures shares == Collected(shards[..])
    {
      shares := [];
      for ix := 0 to shards.Length
        invariant shares == Collected(shards[..ix])
      {
        assert shards[..ix + 1][..ix] == shards[..ix];
        if shards[ix].Some? {
          shares := shares + [Share(ix, shards[ix].value.data)];
        }
      }
      assert shards[..shards.Length] == shards[..];
    }

    /** The mxor decoder stops at the second shard. */
    method FirstTwo() returns (shares: seq<Share>)
      ensures shares == (if |Collected(shards[..])| > 2 then Collected(shards[..])[..2] else Collected(shards[..]))
    {
      shares := [];
      for ix := 0 to shards.Length
        invariant shares == Collected(shards[..ix]) && |shares| < 2
      {
        assert shards[..ix + 1][..ix] == shards[..ix];
        if shards[ix].Some? {
          shares := shares + [Share(ix, shards[ix].value.data)];
          if |shares| == 2 {
            CollectedGrows(shards[..], ix + 1);
            return;
          }
        }
      }
      assert shards[..shards.Length] == shards[..];
    }

    method GetOriginalDataFromContainer(env: Env, bytes: ByteString) returns (r: Result<ByteString>)
      ensures r == OriginalData(env, shards[..], bytes)
    {
      var shard := GetFirstShard();
      if shard.None? {
        return Rejected;
      }
      var h :- Parse(env, shard.value.hdr);
      r := GetOriginalData(env, h.FileContainerLen(), h.fcHash, bytes);
    }

    method Decode(env: Env) returns (r: Result<ByteString>)
      ensures r == Decoded(env, kind, numRequired, numTotal, shards[..])
    {
      var decoded: Option<ByteString>;
      if kind.Mxor? {
        var two := FirstTwo();
        if |two| != 2 || |two[0].data| != |two[1].data| {
          return Rejected;
        }
        decoded := env.mxorDecode(two[0], two[1]);
      } else {
        var shares := CollectShares();
        if !ValidFec(numRequired, numTotal) {
          return Rejected;
        }
        decoded := env.fecDecode(numRequired, numTotal, shares);
      }
      if decoded.None? {
        return Rejected;
      }
      r := GetOriginalDataFromContainer(env, decoded.value);
    }
  }

  /** Nothing is decoded from shards of different lengths by the mxor code, nor from fewer
      than two, nor with numbers that no Reed-Solomon code has. */
  lemma DecodingRefused(env: Env, kind: Kind, required: int, total: int, slots: Slots)
    ensures kind.Mxor? && (|Collected(slots)| < 2 || |Collected(slots)[0].data| != |Collected(slots)[1].data|) ==>
      Decoded(env, kind, required, total, slots) == Rejected
    ensures !kind.Mxor? && !(1 <= required <= total <= 256) ==>
      Decoded(env, kind, required, total, slots) == Rejected
  {
  }

  /** Later slots only add to what was collected. */
  lemma {:induction false} CollectedGrows(slots: Slots, m: nat)
    requires m <= |slots|
    ensures Collected(slots[..m]) <= Collected(slots)
    decreases |slots|
  {
    if m < |slots| {
      var front := slots[..|slots| - 1];
      CollectedGrows(front, m);
      assert front[..m] == slots[..m];
    } else {
      assert slots[..m] == slots;
    }
  }
}
