/** One shard on its way: the uploader writes and signs it, the storage provider
    parses, hashes and stores it, the downloading client reads it back. */
module ShardTransfer {
  import opened Bytes
  import opened Codecs
  import opened ShardHeaders

  datatype Shard = Shard(hdr: ByteString, data: ByteString)

  /** What the provider keeps: the file, and what it will verify later. */
  datatype Receipt = Receipt(file: ByteString, hash: ByteString, signature: ByteString)

  predicate IsArchiveShard(shard: Shard) {
    |shard.hdr| > 2 && shard.hdr[1] == AORS_CONTAINER
  }

  /** What follows the data of an archive shard. */
  function Trailer(env: Env, data: ByteString): ByteString
    requires Lawful(env)
  {
    var parity := RSIParity(env, data, 25);
    parity + env.Crc(data + parity)
  }

  /** Everything of a shard that its uploader signs. */
  function Body(env: Env, shard: Shard): ByteString
    requires Lawful(env)
  {
    shard.hdr + shard.data + (if IsArchiveShard(shard) then Trailer(env, shard.data) else [])
  }

  function Wire(env: Env, shard: Shard): ByteString
    requires Lawful(env)
  {
    Body(env, shard) + env.sign(env.hash(Body(env, shard)))
  }

  method WriteShardContainer(env: Env, shard: Shard) returns (w: ByteString)
    requires Lawful(env)
    ensures w == Wire(env, shard)
  {
    hide RSIParity;
    var hw := new HashingWriter();
    hw.Write(shard.hdr);
    hw.Write(shard.data);
    assert hw.toData == shard.hdr + shard.data;
    if IsArchiveShard(shard) {
      var parity := RSIParity(env, shard.data, 25);
      hw.Write(parity);
      hw.Write(env.Crc(shard.data + parity));
      assert hw.toData == shard.hdr + shard.data + Trailer(env, shard.data);
    }
    assert hw.toHash == hw.toData == Body(env, shard);
    var uploaderSignature := env.sign(env.hash(hw.toHash));
    w := hw.toData + uploaderSignature;
  }

  /** How many bytes a reader limited to `n` takes from `available`. */
  function Taken(n: int, available: nat): nat {
    if n < 0 then 0 else if n <= available then n else available
  }

  /** Hashes the header as it came, stores it marked, copies the data, and leaves the
      signature to be returned. */
  method StoreSPShard(env: Env, h: ShardHeader, r: ByteReader)
    returns (res: Result<(ByteString, ByteString, ByteString)>)
    requires Lawful(env) && h.NumRequired() != 0 && r.Valid()
    modifies r
    ensures r.Valid()
    ensures var pos, d := old(r.pos), r.data;
      var end := pos + Taken(h.NumBytes(), |d| - pos);
      if end + SIGNATURE_LEN <= |d|
      then
        && r.pos == end + SIGNATURE_LEN
        && res == Ok((ToBytes(env, h.MarkedAsSP()) + d[pos..end],
                      env.hash(ToBytes(env, h) + d[pos..end]),
                      d[end..end + SIGNATURE_LEN]))
      else res == Rejected
  {
    var wr := new HashingWriter();
    wr.toHash := wr.toHash + ToBytes(env, h);
    wr.toData := wr.toData + ToBytes(env, h.MarkedAsSP());
    assert wr.toHash == ToBytes(env, h) && wr.toData == ToBytes(env, h.MarkedAsSP());
    var payload := r.ReadUpTo(h.NumBytes());
    wr.Write(payload);
    var hash := env.hash(wr.toHash);
    var uploaderSignature :- r.ReadExactly(SIGNATURE_LEN);
    return Ok((wr.toData, hash, uploaderSignature));
  }

  /** What the upload handler of a provider, whose key is `spSign`, makes of a wire. */
  function Received(env: Env, spSign: ByteString -> ByteString, wire: ByteString): Result<Receipt>
    requires Lawful(env)
  {
    var h :- Parse(env, wire);
    if h.NumRequired() == 0 then Panicked
    else if |wire| < h.HeaderLen() then Rejected
    else
      var pos := h.HeaderLen();
      var end := pos + Taken(h.NumBytes(), |wire| - pos);
      if end + SIGNATURE_LEN > |wire| then Rejected
      else
        var signature := wire[end..end + SIGNATURE_LEN];
        Ok(Receipt(ToBytes(env, h.MarkedAsSP()) + wire[pos..end] + signature + spSign(env.hash(signature)),
                   env.hash(ToBytes(env, h) + wire[pos..end]), signature))
  }

  method ReceiveShard(env: Env, spSign: ByteString -> ByteString, wire: ByteString) returns (res: Result<Receipt>)
    requires Lawful(env)
    ensures res == Received(env, spSign, wire)
  {
    hide ToBytes, ParseMxor, ParseBors, ParseAors;
    var r := new ByteReader(wire);
    var h :- NewShardHeader(env, r);
    if h.NumRequired() == 0 {
      return Panicked;
    }
    var stored :- StoreSPShard(env, h, r);
    var (data, hash, signature) := stored;
    return Ok(Receipt(data + signature + spSign(env.hash(signature)), hash, signature));
  }

  /** Reads a stored shard; the header bytes are written anew from what was parsed. */
  function NewShardFromSP(env: Env, file: ByteString): Result<Shard>
    requires Lawful(env)
  {
    var h :- Parse(env, file);
    if h.NumRequired() == 0 then Panicked
    else
      var l := h.HeaderLen();
      if 0 <= h.PayloadLen() && l + h.PayloadLen() <= |file|
      then Ok(Shard(ToBytes(env, h), file[l..l + h.PayloadLen()]))
      else Panicked
  }

  // ---- agreement ----

  /** A shard as the encoders make it: the data has the length that the header tells. */
  predicate Proper(env: Env, h: ShardHeader, shard: Shard)
    requires Lawful(env)
  {
    && h.NumRequired() > 0 && h.FileContainerLen() >= 0
    && shard.hdr == ToBytes(env, h)
    && |shard.data| == h.PayloadLen()
  }

  lemma BodyLength(env: Env, h: ShardHeader, shard: Shard)
    requires Lawful(env) && Proper(env, h, shard)
    ensures IsArchiveShard(shard) == h.AorsHeader?
    ensures |Body(env, shard)| == h.HeaderLen() + h.NumBytes()
  {
    if h.AorsHeader? {
      ShareSizeIsCeiling(|shard.data|, 25);
    }
  }

  /** `GetShardTotalLen`, which counts 55 bytes for the header of an archive shard. */
  function ShardTotalLen(h: ShardHeader): int
    requires h.NumRequired() != 0
  {
    h.NumBytes() + (if h.MxorHeader? then 41 else if h.BorsHeader? then 46 else 55) + SIGNATURE_LEN
  }

  /** It tells the length of what is sent, except for an archive shard, where it forgets
      the parity and the checksum of the header. */
  lemma TotalLenRight(env: Env, h: ShardHeader, shard: Shard)
    requires Lawful(env) && Proper(env, h, shard)
    ensures ShardTotalLen(h) == |Wire(env, shard)| <==> !h.AorsHeader?
    ensures h.AorsHeader? ==> ShardTotalLen(h) == |Wire(env, shard)| - 7
  {
    hide Body;
    BodyLength(env, h, shard);
  }

  /** The provider stores exactly what the uploader wrote, an mxor header marked; it
      consumes everything up to the 65 bytes of the signature; and the hash it computes
      is the one that the uploader signed, although the stored header may differ. */
  lemma HashAgreement(env: Env, spSign: ByteString -> ByteString, h: ShardHeader, shard: Shard)
    requires Lawful(env) && Proper(env, h, shard)
    ensures var wire, body := Wire(env, shard), Body(env, shard);
      var signature := env.sign(env.hash(body));
      && |wire| == h.HeaderLen() + h.NumBytes() + SIGNATURE_LEN
      && Received(env, spSign, wire) == Ok(Receipt(
           ToBytes(env, h.MarkedAsSP()) + body[h.HeaderLen()..] + signature + spSign(env.hash(signature)),
           env.hash(body),
           signature))
  {
    hide ToBytes, Parse, Body, LawfulDigests, ShareSize, RoundUp;
    var body := Body(env, shard);
    var signature := env.sign(env.hash(body));
    SignatureLength(env, env.hash(body));
    BodyLength(env, h, shard);
    BodyStart(env, h, shard);
    ReceivedParts(env, spSign, h, body[h.HeaderLen()..], signature);
  }

  lemma SignatureLength(env: Env, bs: ByteString)
    requires Lawful(env)
    ensures |env.sign(bs)| == SIGNATURE_LEN
  {
  }

  lemma BodyStart(env: Env, h: ShardHeader, shard: Shard)
    requires Lawful(env) && Proper(env, h, shard)
    ensures |Body(env, shard)| >= h.HeaderLen()
    ensures Body(env, shard) == ToBytes(env, h) + Body(env, shard)[h.HeaderLen()..]
  {
    hide ToBytes, RSIParity, Trailer;
    var trailer := if IsArchiveShard(shard) then Trailer(env, shard.data) else [];
    assert Body(env, shard) == ToBytes(env, h) + (shard.data + trailer);
  }

  /** A header, as many bytes as it announces, and a signature are taken apart again. */
  lemma ReceivedParts(
    env: Env, spSign: ByteString -> ByteString, h: ShardHeader, rest: ByteString, signature: ByteString)
    requires Lawful(env) && h.NumRequired() > 0 && |rest| == h.NumBytes() && |signature| == SIGNATURE_LEN
    ensures Received(env, spSign, ToBytes(env, h) + rest + signature) == Ok(Receipt(
      ToBytes(env, h.MarkedAsSP()) + rest + signature + spSign(env.hash(signature)),
      env.hash(ToBytes(env, h) + rest),
      signature))
  {
    hide ToBytes, Parse, LawfulDigests, ShareSize, RoundUp;
    var wire := ToBytes(env, h) + rest + signature;
    assert wire == ToBytes(env, h) + (rest + signature);
    HeaderRoundTrip(env, h, rest + signature);
    var pos := h.HeaderLen();
    var end := pos + |rest|;
    assert wire[pos..end] == rest && wire[end..end + SIGNATURE_LEN] == signature;
  }

  /** What is sent of a shard: header and data, of an archive shard a parity block of the
      data and a checksum of both, and the signature of all of it. */
  lemma WireLayout(env: Env, h: ShardHeader, shard: Shard)
    requires Lawful(env) && Proper(env, h, shard)
    ensures var w, start, end := Wire(env, shard), h.HeaderLen(), h.HeaderLen() + |shard.data|;
      var parityEnd := end + DivideRoundUp(|shard.data|, 25);
      && |w| >= end && w[..start] == shard.hdr && w[start..end] == shard.data
      && (!h.AorsHeader? ==> |w| == end + 65 && w[end..] == env.sign(env.hash(w[..end])))
      && (h.AorsHeader? ==>
        && |w| == parityEnd + 69
        && w[end..parityEnd] == RSIParity(env, shard.data, 25)
        && Value(w[parityEnd..parityEnd + 4]) == env.crc(w[start..parityEnd])
        && w[parityEnd + 4..] == env.sign(env.hash(w[..parityEnd + 4])))
  {
    hide Wire, Body, RSIParity, ToBytes, DivideRoundUp, LawfulDigests, IsArchiveShard, ShareSize, RoundUp;
    BodyLength(env, h, shard);
    if h.AorsHeader? {
      ArchiveWire(env, shard);
    } else {
      BrowserWire(env, shard);
    }
  }

  lemma BrowserWire(env: Env, shard: Shard)
    requires Lawful(env) && !IsArchiveShard(shard)
    ensures var w, end := Wire(env, shard), |shard.hdr| + |shard.data|;
      && |w| == end + 65 && w[..|shard.hdr|] == shard.hdr && w[|shard.hdr|..end] == shard.data
      && w[end..] == env.sign(env.hash(w[..end]))
  {
    var body := shard.hdr + shard.data;
    assert Body(env, shard) == body;
    SignatureLength(env, env.hash(body));
    var w := body + env.sign(env.hash(body));
    assert w[..|body|] == body && w[|shard.hdr|..|body|] == shard.data;
  }

  lemma ArchiveWire(env: Env, shard: Shard)
    requires Lawful(env) && IsArchiveShard(shard)
    ensures var w, start, end := Wire(env, shard), |shard.hdr|, |shard.hdr| + |shard.data|;
      var parityEnd := end + DivideRoundUp(|shard.data|, 25);
      && |w| == parityEnd + 69 && w[..start] == shard.hdr && w[start..end] == shard.data
      && w[end..parityEnd] == RSIParity(env, shard.data, 25)
      && Value(w[parityEnd..parityEnd + 4]) == env.crc(w[start..parityEnd])
      && w[parityEnd + 4..] == env.sign(env.hash(w[..parityEnd + 4]))
  {
    hide RSIParity, DivideRoundUp, LawfulDigests, Wire, Body, BigEndian, IsArchiveShard;
    var parity, body := RSIParity(env, shard.data, 25), Body(env, shard);
    var crc, signature := env.Crc(shard.data + parity), env.sign(env.hash(body));
    CrcValue(env, shard.data + parity);
    SignatureLength(env, env.hash(body));
    ArchiveBody(env, shard);
    TrailerParts(shard.hdr, shard.data, parity, crc, signature);
  }

  lemma ArchiveBody(env: Env, shard: Shard)
    requires Lawful(env) && IsArchiveShard(shard)
    ensures var parity, body := RSIParity(env, shard.data, 25), Body(env, shard);
      && body == shard.hdr + shard.data + parity + env.Crc(shard.data + parity)
      && Wire(env, shard) == body + env.sign(env.hash(body))
  {
    hide RSIParity;
    var parity := RSIParity(env, shard.data, 25);
    Joined(shard.hdr + shard.data, parity, env.Crc(shard.data + parity));
  }

  lemma Joined(a: ByteString, b: ByteString, c: ByteString)
    ensures a + (b + c) == a + b + c
  {
  }

  lemma TrailerParts(a: ByteString, b: ByteString, c: ByteString, d: ByteString, e: ByteString)
    ensures var w, i, j := a + b + c + d + e, |a| + |b|, |a| + |b| + |c|;
      && w[..|a|] == a && w[|a|..i] == b && w[i..j] == c && w[j..j + |d|] == d && w[|a|..j] == b + c
      && w[j + |d|..] == e && w[..j + |d|] == a + b + c + d
  {
  }

  /** A provider stores nothing of a shard that was cut off, wherever it was. */
  lemma TruncatedNotStored(env: Env, spSign: ByteString -> ByteString, h: ShardHeader, shard: Shard, n: nat)
    requires Lawful(env) && Proper(env, h, shard) && n < |Wire(env, shard)|
    ensures Received(env, spSign, Wire(env, shard)[..n]).Rejected?
  {
    hide ToBytes, Parse, Body, LawfulDigests, ShareSize, RoundUp;
    var wire, l := Wire(env, shard), h.HeaderLen();
    var body := Body(env, shard);
    SignatureLength(env, env.hash(body));
    BodyLength(env, h, shard);
    BodyStart(env, h, shard);
    if n >= l {
      var rest := wire[..n][l..];
      assert wire[..n] == ToBytes(env, h) + rest;
      HeaderRoundTrip(env, h, rest);
    } else {
      assert wire[..n] == ToBytes(env, h)[..n];
      ShortHeader(env, h, n);
    }
  }

  lemma ShortHeader(env: Env, h: ShardHeader, n: nat)
    requires Lawful(env) && n < h.HeaderLen()
    ensures Parse(env, ToBytes(env, h)[..n]).Rejected?
  {
    hide BigEndian, RSIParity;
    assert n >= 2 ==> ToBytes(env, h)[..n][1] == h.ContainerType();
  }

  /** The client gets the data back from any file that begins with the stored header
      and the data, whatever signatures follow. */
  lemma StoredShardRead(env: Env, h: ShardHeader, shard: Shard, rest: ByteString)
    requires Lawful(env) && Proper(env, h, shard)
    ensures NewShardFromSP(env, ToBytes(env, h.MarkedAsSP()) + shard.data + rest)
         == Ok(Shard(ToBytes(env, h.MarkedAsSP()), shard.data))
  {
    hide ToBytes, Parse;
    var m := h.MarkedAsSP();
    var file := ToBytes(env, m) + shard.data + rest;
    assert file == ToBytes(env, m) + (shard.data + rest);
    HeaderRoundTrip(env, m, shard.data + rest);
    assert m.PayloadLen() == h.PayloadLen() && m.HeaderLen() == h.HeaderLen();
    assert file[|ToBytes(env, m)|..|ToBytes(env, m)| + |shard.data|] == shard.data;
  }

  /** Upload, storage and download of one shard: the client has the uploader's data,
      under the provider's copy of the header. */
  lemma ShardDelivered(env: Env, spSign: ByteString -> ByteString, h: ShardHeader, shard: Shard)
    requires Lawful(env) && Proper(env, h, shard)
    ensures var receipt := Received(env, spSign, Wire(env, shard));
      && receipt.Ok?
      && receipt.value.signature == env.sign(receipt.value.hash)
      && NewShardFromSP(env, receipt.value.file) == Ok(Shard(ToBytes(env, h.MarkedAsSP()), shard.data))
  {
    hide ToBytes, Parse, RSIParity, NewShardFromSP, Received;
    HashAgreement(env, spSign, h, shard);
    BodyLength(env, h, shard);
    var body := Body(env, shard);
    var signature := env.sign(env.hash(body));
    var trailer := if IsArchiveShard(shard) then Trailer(env, shard.data) else [];
    var hdr := ToBytes(env, h.MarkedAsSP());
    assert body == shard.hdr + (shard.data + trailer);
    assert body[h.HeaderLen()..] == shard.data + trailer;
    Regroup(hdr, shard.data, trailer, signature, spSign(env.hash(signature)));
    StoredShardRead(env, h, shard, trailer + signature + spSign(env.hash(signature)));
  }

  lemma Regroup(a: ByteString, b: ByteString, c: ByteString, d: ByteString, e: ByteString)
    ensures a + (b + c) + d + e == a + b + (c + d + e)
  {
  }
}
