/** From a file to its shards, through the storage providers, and back: the file that
    is downloaded is the file that was uploaded. */
module ShardPipeline {
  import opened ArchonUrls
  import opened Bytes
  import opened Codecs
  import opened FileContainer
  import opened ShardHeaders
  import opened ShardTransfer
  import opened ShardsContainer

  /** The header at the start of `bytes` tells which shard this is, of which code and of
      which container; the numbers of a browser header have one byte. */
  predicate Describes(
    env: Env, bytes: ByteString, kind: Kind, required: nat, total: nat, i: nat, fcLen: nat, fcHash: ByteString)
  {
    var h := Parse(env, bytes);
    && h.Ok?
    && h.value.ContainerType() == (match kind case Mxor => 0 case Bors => 1 case Aors => 2)
    && h.value.ShardIndex() == i
    && h.value.NumTotal() == (if kind.Bors? then total % 256 else total)
    && h.value.NumRequired() == (if kind.Bors? then required % 256 else required)
    && h.value.FileContainerLen() == fcLen && h.value.fcHash == fcHash
  }

  lemma HeaderDescribes(
    env: Env, kind: Kind, required: nat, total: nat, i: nat, fcLen: nat, fcHash: Hash32, rest: ByteString)
    requires Lawful(env) && Encodable(kind, required, total, fcLen) && i < total
    ensures var h := HeaderFor(kind, required, total, i, fcLen, fcHash);
      && Describes(env, ToBytes(env, h) + rest, kind, required, total, i, fcLen, fcHash)
      && Describes(env, ToBytes(env, h.MarkedAsSP()) + rest, kind, required, total, i, fcLen, fcHash)
  {
    hide ToBytes, Parse;
    var h := HeaderFor(kind, required, total, i, fcLen, fcHash);
    HeaderRoundTrip(env, h, rest);
    HeaderRoundTrip(env, h.MarkedAsSP(), rest);
  }

  // ---- the uploader ----

  method NewFileContainer(env: Env, s: ShardsContainer, payload: ByteString) returns (r: Result<()>)
    requires Lawful(env) && s.shards.Length == s.numTotal
    requires s.kind.Mxor? ==> s.numRequired == MXOR_REQUIRED && s.numTotal == MXOR_TOTAL && LawfulMxor(env)
    requires !s.kind.Mxor? && ValidFec(s.numRequired, s.numTotal) ==> FecLengths(env, s.numRequired, s.numTotal)
    requires ContainerLen(ContainerTypeOf(s.kind), |payload|) < TWO_63
    modifies s, s.shards
    ensures var fc := Container(env, if s.kind.Aors? then ARCHIVE_OPTIMIZED else BROWSER_OPTIMIZED, payload);
      && (r.Ok? <==> Encodable(s.kind, s.numRequired, s.numTotal, |fc|))
      && (r.Ok? <==> if s.kind.Mxor? then |fc| < 4_000_000_000 else 1 <= s.numRequired <= s.numTotal <= 256)
      && (r.Ok? ==>
        && |EncodedData(env, s.kind, s.numRequired, s.numTotal, fc)| == s.numTotal
        && forall i | 0 <= i < s.numTotal ::
             s.shards[i] == Some(EncodedShard(env, s.kind, s.numRequired, s.numTotal, fc, env.hash(fc), i)))
      && (r.Ok? ==> forall i | 0 <= i < s.numTotal ::
            && s.shards[i].Some?
            && s.shards[i].value.data == EncodedData(env, s.kind, s.numRequired, s.numTotal, fc)[i]
            && Describes(env, s.shards[i].value.hdr, s.kind, s.numRequired, s.numTotal, i, |fc|, env.hash(fc)))
  {
    hide Container, EncodedShard, EncodedData, Describes;
    ContainerLength(env, ContainerTypeOf(s.kind), payload);
    var fc, signature, hash := CreateContainerBytes(env, ContainerTypeOf(s.kind), payload);
    s.fileContainerHash := hash;
    r := s.Encode(env, fc);
    if r.Ok? {
      forall i | 0 <= i < s.numTotal
        ensures s.shards[i].value.data == EncodedData(env, s.kind, s.numRequired, s.numTotal, fc)[i]
        ensures Describes(env, s.shards[i].value.hdr, s.kind, s.numRequired, s.numTotal, i, |fc|, hash)
      {
        ShardDescribed(env, s.kind, s.numRequired, s.numTotal, fc, hash, i);
      }
    }
  }

  lemma ShardDescribed(
    env: Env, kind: Kind, required: nat, total: nat, fc: ByteString, fcHash: Hash32, i: nat)
    requires Lawful(env) && Encodable(kind, required, total, |fc|) && i < total
    requires |EncodedData(env, kind, required, total, fc)| == total
    ensures var shard := EncodedShard(env, kind, required, total, fc, fcHash, i);
      && shard.data == EncodedData(env, kind, required, total, fc)[i]
      && Describes(env, shard.hdr, kind, required, total, i, |fc|, fcHash)
  {
    hide Describes, EncodedData, ToBytes;
    HeaderDescribes(env, kind, required, total, i, |fc|, fcHash, []);
    var hdr := EncodedShard(env, kind, required, total, fc, fcHash, i).hdr;
    assert hdr + [] == hdr;
  }

  /** A file and the code it was uploaded with. */
  datatype Origin = Origin(kind: Kind, required: nat, total: nat, payload: ByteString)

  function FileOf(env: Env, o: Origin): ByteString
    requires Lawful(env)
  {
    Container(env, ContainerTypeOf(o.kind), o.payload)
  }

  /** The upload was accepted, and the codes keep their laws. */
  ghost predicate Published(env: Env, o: Origin) {
    && Lawful(env)
    && Encodable(o.kind, o.required, o.total, |FileOf(env, o)|)
    && LawfulCode(env, o.kind, o.required, o.total)
  }

  function DataOf(env: Env, o: Origin): seq<ByteString>
    requires Lawful(env) && o.required > 0
  {
    EncodedData(env, o.kind, o.required, o.total, FileOf(env, o))
  }

  function HeaderOf(env: Env, o: Origin, i: nat): ShardHeader
    requires Lawful(env) && Encodable(o.kind, o.required, o.total, |FileOf(env, o)|) && i < o.total
  {
    HeaderFor(o.kind, o.required, o.total, i, |FileOf(env, o)|, env.hash(FileOf(env, o)))
  }

  /** The length of every share. */
  function ShareLen(env: Env, o: Origin): int
    requires Lawful(env) && o.required > 0
  {
    if o.kind.Mxor? then RoundUp(|FileOf(env, o)|, MXOR_TOTAL) / MXOR_REQUIRED
    else ShareSize(|FileOf(env, o)|, o.required)
  }

  lemma DataLengths(env: Env, o: Origin)
    requires Published(env, o)
    ensures |DataOf(env, o)| == o.total
    ensures forall i | 0 <= i < o.total :: |DataOf(env, o)[i]| == ShareLen(env, o)
  {
    hide Container;
  }

  ghost function ShardOf(env: Env, o: Origin, i: nat): Shard
    requires Published(env, o) && i < o.total
  {
    DataLengths(env, o);
    EncodedShard(env, o.kind, o.required, o.total, FileOf(env, o), env.hash(FileOf(env, o)), i)
  }

  // ---- the storage providers ----

  /** `file` is what some provider stored when the uploader sent it shard `i`. */
  ghost predicate StoredCopy(env: Env, o: Origin, i: nat, file: ByteString)
    requires Published(env, o) && i < o.total
  {
    exists spSign: ByteString -> ByteString :: StoredBy(env, o, i, file, spSign)
  }

  ghost predicate StoredBy(env: Env, o: Origin, i: nat, file: ByteString, spSign: ByteString -> ByteString)
    requires Published(env, o) && i < o.total
  {
    var receipt := Received(env, spSign, Wire(env, ShardOf(env, o, i)));
    receipt.Ok? && receipt.value.file == file
  }

  /** Shard `i` as it comes back, under the header that the provider stored. */
  ghost function ReturnedShard(env: Env, o: Origin, i: nat): Shard
    requires Published(env, o) && i < o.total
  {
    DataLengths(env, o);
    Shard(ToBytes(env, HeaderOf(env, o, i).MarkedAsSP()), DataOf(env, o)[i])
  }

  /** What the header tells; 256 required shards read as none in a browser header. */
  lemma HeaderTells(kind: Kind, required: nat, total: nat, i: nat, fcLen: nat, fcHash: Hash32)
    requires Encodable(kind, required, total, fcLen) && i < total
    ensures var h := HeaderFor(kind, required, total, i, fcLen, fcHash);
      && h.FileContainerLen() == fcLen
      && (h.NumRequired() == 0 <==> kind.Bors? && required == 256)
      && (h.NumRequired() != 0 ==>
        h.NumRequired() == required && h.PayloadLen()
          == if kind.Mxor? then RoundUp(fcLen, MXOR_TOTAL) / MXOR_REQUIRED else ShareSize(fcLen, required))
  {
    hide RoundUp, ShareSize;
  }

  lemma ProperShard(env: Env, o: Origin, i: nat)
    requires Published(env, o) && i < o.total
    ensures var h := HeaderOf(env, o, i);
      if h.NumRequired() == 0 then ShardOf(env, o, i).hdr == ToBytes(env, h)
      else Proper(env, h, ShardOf(env, o, i)) && ShardOf(env, o, i).data == DataOf(env, o)[i]
  {
    DataLengths(env, o);
    hide Container, LawfulCode, Lawful, ToBytes, EncodedData, ShareSize, RoundUp, FileOf, Encodable, HeaderFor;
    HeaderTells(o.kind, o.required, o.total, i, |FileOf(env, o)|, env.hash(FileOf(env, o)));
  }

  /** A provider that stored a shard gives it back; the one exception is a browser
      shard with 256 required shards, which no provider can store. */
  lemma CopyReturned(env: Env, o: Origin, i: nat, file: ByteString)
    requires Published(env, o) && i < o.total && StoredCopy(env, o, i, file)
    ensures Parse(env, file) == Ok(HeaderOf(env, o, i).MarkedAsSP())
    ensures Describes(env, file, o.kind, o.required, o.total, i, |FileOf(env, o)|, env.hash(FileOf(env, o)))
    ensures NewShardFromSP(env, file) == Ok(ReturnedShard(env, o, i))
    ensures HeaderOf(env, o, i).NumRequired() > 0
  {
    hide Container, LawfulCode, Lawful, ToBytes, Parse, Received, NewShardFromSP, Wire, ShardOf, HeaderOf, Encodable;
    var spSign: ByteString -> ByteString :| StoredBy(env, o, i, file, spSign);
    var h, shard := HeaderOf(env, o, i), ShardOf(env, o, i);
    ProperShard(env, o, i);
    DataLengths(env, o);
    if h.NumRequired() == 0 {
      NothingReceived(env, spSign, h, shard);
    } else {
      ShardDelivered(env, spSign, h, shard);
      FileStart(env, spSign, h, shard);
      MarkedDescribes(env, o, i, file);
    }
  }

  lemma MarkedDescribes(env: Env, o: Origin, i: nat, file: ByteString)
    requires Published(env, o) && i < o.total && Parse(env, file) == Ok(HeaderOf(env, o, i).MarkedAsSP())
    ensures Describes(env, file, o.kind, o.required, o.total, i, |FileOf(env, o)|, env.hash(FileOf(env, o)))
  {
    hide Parse, FileOf, LawfulCode;
  }

  /** Shards of one upload are never stored under one name: the provider takes the index
      for the name from the header. */
  lemma StoredApart(env: Env, o: Origin, i: nat, file: ByteString, j: nat, other: ByteString, url: ArchonUrl)
    requires Published(env, o) && i < o.total && j < o.total && !url.IsWholeFile()
    requires StoredCopy(env, o, i, file) && StoredCopy(env, o, j, other)
    ensures Parse(env, file).Ok? && Parse(env, other).Ok?
    ensures ShardPath(url, Parse(env, file).value.ShardIndex()) == ShardPath(url, Parse(env, other).value.ShardIndex())
        <==> i == j
  {
    CopyReturned(env, o, i, file);
    CopyReturned(env, o, j, other);
    IndexDistinguishes(url, i, j);
    hide StoredCopy, Parse, ShardPath, FileOf, LawfulCode, HeaderOf, NewShardFromSP, ReturnedShard;
  }

  lemma NothingReceived(env: Env, spSign: ByteString -> ByteString, h: ShardHeader, shard: Shard)
    requires Lawful(env) && shard.hdr == ToBytes(env, h) && h.NumRequired() == 0
    ensures Received(env, spSign, Wire(env, shard)).Panicked?
  {
    hide ToBytes, Parse, Trailer;
    var rest := Wire(env, shard)[|shard.hdr|..];
    assert Wire(env, shard) == ToBytes(env, h) + rest;
    HeaderRoundTrip(env, h, rest);
  }

  lemma FileStart(env: Env, spSign: ByteString -> ByteString, h: ShardHeader, shard: Shard)
    requires Lawful(env) && Proper(env, h, shard)
    ensures Received(env, spSign, Wire(env, shard)).Ok?
    ensures Parse(env, Received(env, spSign, Wire(env, shard)).value.file) == Ok(h.MarkedAsSP())
  {
    hide ToBytes, Parse, Received, Body, Wire;
    HashAgreement(env, spSign, h, shard);
    var body := Body(env, shard);
    BodyLength(env, h, shard);
    var signature := env.sign(env.hash(body));
    var m, tail := ToBytes(env, h.MarkedAsSP()), body[h.HeaderLen()..];
    var sp := spSign(env.hash(signature));
    assert m + tail + signature + sp == m + (tail + signature + sp);
    HeaderRoundTrip(env, h.MarkedAsSP(), tail + signature + sp);
  }

  // ---- the downloading client ----

  /** Exactly the slots in `present` are filled, each with what came back. */
  ghost predicate Filled(env: Env, o: Origin, slots: Slots, present: set<nat>)
    requires Published(env, o)
  {
    && |slots| == o.total
    && forall i | 0 <= i < o.total ::
         slots[i] == if i in present then Some(ReturnedShard(env, o, i)) else None
  }

  lemma {:induction false} CollectedGood(slots: Slots, data: seq<ByteString>)
    requires |slots| <= |data|
    requires forall i | 0 <= i < |slots| && slots[i].Some? :: slots[i].value.data == data[i]
    ensures GoodShares(data, Collected(slots))
    ensures forall share <- Collected(slots) :: share.number < |slots|
  {
    if slots == [] {
    } else {
      var i, earlier := |slots| - 1, Collected(slots[..|slots| - 1]);
      CollectedGood(slots[..i], data);
      CollectedNext(slots, i);
      hide Collected, GoodShares;
      if slots[i].Some? {
        GoodExtended(data, earlier, Share(i, data[i]));
      }
    }
  }

  lemma CollectedNext(slots: Slots, i: nat)
    requires |slots| == i + 1
    ensures slots[i].None? ==> Collected(slots) == Collected(slots[..i])
    ensures slots[i].Some? ==> Collected(slots) == Collected(slots[..i]) + [Share(i, slots[i].value.data)]
  {
  }

  lemma GoodExtended(data: seq<ByteString>, picked: seq<Share>, share: Share)
    requires GoodShares(data, picked) && forall earlier <- picked :: earlier.number < share.number
    requires share.number < |data| && share.data == data[share.number]
    ensures GoodShares(data, picked + [share])
  {
    forall i, j | 0 <= i < j < |picked + [share]|
      ensures (picked + [share])[i].number < (picked + [share])[j].number
    {
      assert picked[i] in picked;
    }
  }

  lemma {:induction false} CollectedCount(slots: Slots, present: set<nat>)
    requires forall i <- present :: i < |slots|
    requires forall i | 0 <= i < |slots| :: slots[i].Some? <==> i in present
    ensures |Collected(slots)| == |present|
    decreases |slots|
  {
    if slots == [] {
      assert present == {};
    } else {
      var i := |slots| - 1;
      CollectedCount(slots[..i], present - {i});
    }
  }

  lemma {:induction false} FirstShardIsPresent(slots: Slots)
    requires exists i | 0 <= i < |slots| :: slots[i].Some?
    ensures exists i | 0 <= i < |slots| :: slots[i].Some? && FirstShard(slots) == slots[i]
  {
    if slots[0].None? {
      var i :| 0 <= i < |slots| && slots[i].Some?;
      assert slots[1..][i - 1] == slots[i];
      FirstShardIsPresent(slots[1..]);
      var j :| 0 <= j < |slots[1..]| && slots[1..][j].Some? && FirstShard(slots[1..]) == slots[1..][j];
      assert FirstShard(slots) == slots[j + 1];
    }
  }

  /** Any of the returned headers locates and checks the file in the decoded bytes. */
  lemma OriginalFromReturned(env: Env, o: Origin, slots: Slots, present: set<nat>, padding: ByteString)
    requires Published(env, o) && Filled(env, o, slots, present)
    requires present != {} && forall i <- present :: i < o.total
    ensures OriginalData(env, slots, FileOf(env, o) + padding) == Ok(o.payload)
  {
    hide ToBytes, Parse, GetOriginalData, Container;
    var k :| k in present;
    assert slots[k].Some?;
    FirstShardIsPresent(slots);
    var i :| 0 <= i < |slots| && slots[i].Some? && FirstShard(slots) == slots[i];
    var m := HeaderOf(env, o, i).MarkedAsSP();
    assert ToBytes(env, m) + [] == ToBytes(env, m);
    HeaderRoundTrip(env, m, []);
    ContainerLength(env, ContainerTypeOf(o.kind), o.payload);
    ContainerRoundTrip(env, ContainerTypeOf(o.kind), o.payload, padding);
  }

  lemma SharesReturned(env: Env, o: Origin, slots: Slots, present: set<nat>)
    requires Published(env, o) && Filled(env, o, slots, present) && forall i <- present :: i < o.total
    ensures GoodShares(DataOf(env, o), Collected(slots)) && |Collected(slots)| == |present|
  {
    hide LawfulCode, Lawful, Container, ToBytes, Collected;
    DataLengths(env, o);
    CollectedGood(slots, DataOf(env, o));
    CollectedCount(slots, present);
  }

  lemma MxorDecodes(env: Env, o: Origin, shares: seq<Share>)
    requires Published(env, o) && o.kind.Mxor? && GoodShares(DataOf(env, o), shares) && |shares| >= 2
    ensures |shares[0].data| == |shares[1].data|
    ensures env.mxorDecode(shares[0], shares[1])
         == Some(FileOf(env, o) + Zeros(RoundUp(|FileOf(env, o)|, MXOR_TOTAL) - |FileOf(env, o)|))
  {
    hide Container;
    DataLengths(env, o);
    var data := DataOf(env, o);
    assert shares[0] == Share(shares[0].number, data[shares[0].number]);
    assert shares[1] == Share(shares[1].number, data[shares[1].number]);
  }

  lemma FecDecodesShares(env: Env, o: Origin, shares: seq<Share>)
    requires Published(env, o) && !o.kind.Mxor? && GoodShares(DataOf(env, o), shares) && |shares| >= o.required
    ensures env.fecDecode(o.required, o.total, shares) == Some(Padded(o.required, FileOf(env, o)))
  {
    hide Container, Padded;
  }

  /** Any `required` shards, in whatever slots they are, decode to the file. */
  lemma DecodeReturned(env: Env, o: Origin, slots: Slots, present: set<nat>)
    requires Published(env, o) && Filled(env, o, slots, present)
    requires |present| >= o.required && forall i <- present :: i < o.total
    ensures Decoded(env, o.kind, o.required, o.total, slots) == Ok(o.payload)
  {
    hide OriginalData, Container, LawfulCode, Lawful, Collected, Padded, Filled, FileOf;
    SharesReturned(env, o, slots, present);
    var fc := FileOf(env, o);
    if o.kind.Mxor? {
      MxorDecodes(env, o, Collected(slots));
      OriginalFromReturned(env, o, slots, present, Zeros(RoundUp(|fc|, MXOR_TOTAL) - |fc|));
    } else {
      FecDecodesShares(env, o, Collected(slots));
      OriginalFromReturned(env, o, slots, present, Zeros(|Padded(o.required, fc)| - |fc|));
    }
  }

  /** The slots of a container before the first shard is placed. */
  predicate AllEmpty(slots: Slots) {
    forall i | 0 <= i < |slots| :: slots[i] == None
  }

  function KindOf(h: ShardHeader): Kind {
    match h.ContainerType() case 0 => Mxor case 1 => Bors case _ => Aors
  }

  /** The container has the code that the header of the file names, and a slot for every shard. */
  predicate AsksFor(env: Env, file: ByteString, s: ShardsContainer) {
    var h := Parse(env, file);
    && h.Ok?
    && s.kind == KindOf(h.value) && s.numRequired == h.value.NumRequired()
    && s.shards.Length == s.numTotal == h.value.NumTotal()
  }

  method NewShardsContainer(env: Env, shardBytes: ByteString) returns (r: Result<ShardsContainer>)
    ensures var h := Parse(env, shardBytes);
      && (h.Ok? && h.value.NumTotal() >= 0 <==> r.Ok?)
      && (r.Ok? ==>
        && fresh(r.value) && fresh(r.value.shards) && AsksFor(env, shardBytes, r.value)
        && AllEmpty(r.value.shards[..]))
  {
    var reader := new ByteReader(shardBytes);
    var h :- NewShardHeader(env, reader);
    if h.NumTotal() < 0 {
      return Panicked;
    }
    var kind := if h.MxorHeader? then Mxor else if h.BorsHeader? then Bors else Aors;
    var s := new ShardsContainer(kind, h.NumTotal(), h.NumRequired());
    return Ok(s);
  }

  /** The shards in the map are copies that providers stored of this upload. */
  ghost predicate Honest(env: Env, o: Origin, shardMap: map<nat, ByteString>) {
    && Published(env, o)
    && forall ix <- shardMap :: ix < o.total && StoredCopy(env, o, ix, shardMap[ix])
  }

  /** The byte that holds the number of shards of a browser container holds it. */
  predicate TotalFits(o: Origin) {
    o.kind.Bors? ==> o.total <= 255
  }

  lemma CopyHeader(env: Env, o: Origin, ix: nat)
    requires Published(env, o) && ix < o.total && HeaderOf(env, o, ix).NumRequired() > 0
    ensures var h := HeaderOf(env, o, ix).MarkedAsSP();
      && h.ContainerType() == (match o.kind case Mxor => 0 case Bors => 1 case Aors => 2)
      && (TotalFits(o) ==> h.NumTotal() == o.total && h.NumRequired() == o.required)
      && (!TotalFits(o) ==> h.NumTotal() == 0)
  {
    hide Container, LawfulCode, Lawful;
  }

  lemma FilledEmpty(env: Env, o: Origin, slots: Slots)
    requires Published(env, o) && |slots| == o.total && forall i | 0 <= i < o.total :: slots[i] == None
    ensures Filled(env, o, slots, {})
  {
  }

  lemma FilledStep(env: Env, o: Origin, slots: Slots, present: set<nat>, ix: nat)
    requires Published(env, o) && Filled(env, o, slots, present) && ix < o.total
    ensures Filled(env, o, slots[ix := Some(ReturnedShard(env, o, ix))], present + {ix})
  {
    hide ReturnedShard, LawfulCode, Lawful;
  }

  /** The container that the first shard asks for. */
  ghost predicate Matches(s: ShardsContainer, o: Origin) {
    TotalFits(o) && s.kind == o.kind && s.numTotal == o.total == s.shards.Length && s.numRequired == o.required
  }

  method StartContainer(env: Env, file: ByteString, ghost o: Origin, ghost ix: nat) returns (r: Result<ShardsContainer>)
    requires Lawful(env)
    ensures r.Ok? ==> fresh(r.value) && fresh(r.value.shards) && AllEmpty(r.value.shards[..])
    ensures r.Ok? ==> AsksFor(env, file, r.value)
    ensures Published(env, o) && ix < o.total && StoredCopy(env, o, ix, file) ==>
      && r.Ok?
      && (TotalFits(o) ==> Matches(r.value, o) && Filled(env, o, r.value.shards[..], {}))
      && (!TotalFits(o) ==> r.value.shards.Length == 0)
  {
    hide ToBytes, Parse, NewShardFromSP, StoredCopy, LawfulCode, Lawful, Encodable, HeaderOf, Filled;
    ghost var honest := Published(env, o) && ix < o.total && StoredCopy(env, o, ix, file);
    if honest {
      CopyReturned(env, o, ix, file);
      CopyHeader(env, o, ix);
    }
    r := NewShardsContainer(env, file);
    if honest && TotalFits(o) {
      FilledEmpty(env, o, r.value.shards[..]);
    }
  }

  /** The slots after a shard, honest or not, has been placed. */
  predicate PlacedAt(env: Env, before: Slots, ix: nat, file: ByteString, slots: Slots)
    requires Lawful(env)
  {
    && ix < |before| && NewShardFromSP(env, file).Ok?
    && slots == before[ix := Some(NewShardFromSP(env, file).value)]
  }

  /** What the slots hold when the shards in `present` have been placed. */
  ghost predicate Placed(env: Env, shardMap: map<nat, ByteString>, slots: Slots, present: set<nat>)
    requires Lawful(env)
  {
    && (forall i <- present :: i in shardMap && i < |slots| && NewShardFromSP(env, shardMap[i]).Ok?)
    && forall i | 0 <= i < |slots| ::
         slots[i] == if i in present then Some(NewShardFromSP(env, shardMap[i]).value) else None
  }

  lemma PlacedStep(
    env: Env, shardMap: map<nat, ByteString>, before: Slots, present: set<nat>, ix: nat, slots: Slots)
    requires Lawful(env) && Placed(env, shardMap, before, present) && ix in shardMap
    requires PlacedAt(env, before, ix, shardMap[ix], slots)
    ensures Placed(env, shardMap, slots, present + {ix})
  {
    hide NewShardFromSP, Lawful;
  }

  lemma PlacedNone(env: Env, shardMap: map<nat, ByteString>, slots: Slots)
    requires Lawful(env) && AllEmpty(slots)
    ensures Placed(env, shardMap, slots, {})
  {
  }

  method PlaceShard(env: Env, s: ShardsContainer, ix: nat, file: ByteString, ghost o: Origin, ghost present: set<nat>)
    returns (r: Result<()>)
    requires Lawful(env)
    modifies s.shards
    ensures s.shards.Length <= ix ==> !r.Ok?
    ensures r.Ok? ==> PlacedAt(env, old(s.shards[..]), ix, file, s.shards[..])
    ensures Published(env, o) && ix < o.total && StoredCopy(env, o, ix, file)
            && s.shards.Length == o.total && Filled(env, o, old(s.shards[..]), present) ==>
      r.Ok? && Filled(env, o, s.shards[..], present + {ix})
  {
    hide ToBytes, Parse, NewShardFromSP, StoredCopy, LawfulCode, Lawful, Encodable, HeaderOf, Filled, ReturnedShard;
    ghost var slots := s.shards[..];
    if Published(env, o) && ix < o.total && StoredCopy(env, o, ix, file) {
      CopyReturned(env, o, ix, file);
      if s.shards.Length == o.total && Filled(env, o, slots, present) {
        FilledStep(env, o, slots, present, ix);
      }
    }
    var sh :- NewShardFromSP(env, file);
    r := s.SetShard(ix, sh);
  }

  lemma HonestShard(env: Env, o: Origin, shardMap: map<nat, ByteString>, ix: nat)
    requires Honest(env, o, shardMap) && ix in shardMap
    ensures Published(env, o) && ix < o.total && StoredCopy(env, o, ix, shardMap[ix])
  {
  }

  /** A container of the right kind in which exactly the shards in `present` are set. */
  ghost predicate Holds(env: Env, o: Origin, s: ShardsContainer, slots: Slots, present: set<nat>) {
    Published(env, o) && TotalFits(o) && Matches(s, o) && Filled(env, o, slots, present)
  }

  method AddShard(env: Env, s0: ShardsContainer?, ix: nat, file: ByteString, ghost o: Origin, ghost present: set<nat>)
    returns (r: Result<ShardsContainer>)
    requires Lawful(env) && (s0 == null ==> present == {})
    modifies if s0 == null then {} else {s0.shards}
    ensures r.Ok? ==> if s0 == null then fresh(r.value) && fresh(r.value.shards) else r.value == s0
    ensures r.Ok? && s0 != null ==> PlacedAt(env, old(s0.shards[..]), ix, file, r.value.shards[..])
    ensures r.Ok? && s0 == null ==>
      && AsksFor(env, file, r.value)
      && exists before: Slots :: AllEmpty(before) && PlacedAt(env, before, ix, file, r.value.shards[..])
    ensures Published(env, o) && ix < o.total && StoredCopy(env, o, ix, file) ==>
      if s0 == null then
        && (r.Ok? <==> TotalFits(o))
        && (r.Ok? ==> Holds(env, o, r.value, r.value.shards[..], present + {ix}))
      else Holds(env, o, s0, old(s0.shards[..]), present) ==>
        r.Ok? && Holds(env, o, s0, s0.shards[..], present + {ix})
  {
    hide StoredCopy, LawfulCode, Lawful, Filled, Encodable, AllEmpty, PlacedAt, AsksFor;
    var s := s0;
    if s == null {
      s :- StartContainer(env, file, o, ix);
    }
    ghost var before := s.shards[..];
    var _ :- PlaceShard(env, s, ix, file, o, present);
    assert PlacedAt(env, before, ix, file, s.shards[..]);
    return Ok(s);
  }

  lemma Moved(todo: set<nat>, present: set<nat>, ix: nat)
    requires ix in todo
    ensures present + {ix} + (todo - {ix}) == present + todo && present + {ix} != {} && |todo - {ix}| < |todo|
  {
    assert ix in present + {ix};
  }

  /** The shards are placed in any order; the first decides the kind of container. */
  method Assemble(env: Env, shardMap: map<nat, ByteString>, ghost o: Origin) returns (r: Result<ShardsContainer>)
    requires Lawful(env)
    ensures Honest(env, o, shardMap) && shardMap != map[] ==>
      && (r.Ok? <==> TotalFits(o))
      && (r.Ok? ==> Holds(env, o, r.value, r.value.shards[..], shardMap.Keys))
    ensures r.Ok? ==> Placed(env, shardMap, r.value.shards[..], shardMap.Keys)
    ensures r.Ok? ==> exists m <- shardMap :: AsksFor(env, shardMap[m], r.value)
  {
    hide StoredCopy, LawfulCode, Lawful, Filled, Encodable, Honest, Holds, Published, TotalFits, Placed, PlacedAt,
      AllEmpty, AsksFor;
    ghost var honest := Honest(env, o, shardMap);
    var s: ShardsContainer? := null;
    var todo := shardMap.Keys;
    ghost var present: set<nat> := {};
    ghost var m: nat := 0;
    while todo != {}
      invariant present + todo == shardMap.Keys
      invariant s == null <==> present == {}
      invariant s != null ==> fresh(s) && fresh(s.shards)
      invariant honest && s != null ==> TotalFits(o) && Holds(env, o, s, s.shards[..], present)
      invariant s != null ==> Placed(env, shardMap, s.shards[..], present)
      invariant s != null ==> m in shardMap && AsksFor(env, shardMap[m], s)
      decreases |todo|
    {
      var ix :| ix in todo;
      assert ix in shardMap.Keys;
      if honest {
        HonestShard(env, o, shardMap, ix);
      }
      ghost var before := if s == null then [] else s.shards[..];
      ghost var first := s == null;
      s :- AddShard(env, s, ix, shardMap[ix], o, present);
      if first {
        before :| AllEmpty(before) && PlacedAt(env, before, ix, shardMap[ix], s.shards[..]);
        PlacedNone(env, shardMap, before);
        m := ix;
      }
      PlacedStep(env, shardMap, before, present, ix, s.shards[..]);
      Moved(todo, present, ix);
      todo, present := todo - {ix}, present + {ix};
    }
    if s == null {
      return Panicked;
    }
    return Ok(s);
  }

  lemma HonestIndices(env: Env, o: Origin, shardMap: map<nat, ByteString>)
    requires Honest(env, o, shardMap)
    ensures Published(env, o) && o.required > 0
    ensures forall ix <- shardMap.Keys :: ix < o.total
    ensures |shardMap| == |shardMap.Keys|
  {
  }

  // ---- shards that are not honest ----

  /** The header of the file tells length and hash of the uploaded container. */
  predicate Announces(env: Env, o: Origin, file: ByteString)
    requires Lawful(env)
  {
    var h := Parse(env, file);
    h.Ok? && h.value.FileContainerLen() == |FileOf(env, o)| && h.value.fcHash == env.hash(FileOf(env, o))
  }

  ghost predicate FirstAnnounces(env: Env, o: Origin, shardMap: map<nat, ByteString>)
    requires Lawful(env)
  {
    exists m <- shardMap :: (forall k <- shardMap :: m <= k) && Announces(env, o, shardMap[m])
  }

  lemma {:induction false} FirstShardAt(slots: Slots, m: nat)
    requires m < |slots| && slots[m].Some? && forall i | 0 <= i < m :: slots[i].None?
    ensures FirstShard(slots) == slots[m]
  {
    if m == 0 {
    } else {
      FirstShardAt(slots[1..], m - 1);
    }
  }

  /** The result is read from `out`, which is what the code that shard `m` asks for makes
      of the shards in their slots. */
  ghost predicate RestoredBy(
    env: Env, shardMap: map<nat, ByteString>, m: nat, slots: Slots, out: ByteString, r: Result<ByteString>)
    requires Lawful(env) && m in shardMap
  {
    var h := Parse(env, shardMap[m]);
    && Placed(env, shardMap, slots, shardMap.Keys)
    && h.Ok? && h.value.NumTotal() == |slots|
    && DecoderOutput(env, KindOf(h.value), h.value.NumRequired(), |slots|, slots) == Some(out)
    && r == OriginalData(env, slots, out)
  }

  lemma FirstHeader(env: Env, o: Origin, shardMap: map<nat, ByteString>, slots: Slots)
    requires Lawful(env) && Placed(env, shardMap, slots, shardMap.Keys) && FirstAnnounces(env, o, shardMap)
    ensures FirstShard(slots).Some? && Announces(env, o, FirstShard(slots).value.hdr)
  {
    hide Parse, ToBytes, FileOf, FirstShard, Lawful;
    var m :| m in shardMap && (forall k <- shardMap :: m <= k) && Announces(env, o, shardMap[m]);
    FirstShardAt(slots, m);
    var h := Parse(env, shardMap[m]).value;
    HeaderRoundTrip(env, h, []);
    assert ToBytes(env, h) + [] == ToBytes(env, h);
  }

  /** Decoded bytes of the right hash: those of the uploaded container give its file, any
      others are a collision. */
  ghost predicate FileOrCollision(env: Env, o: Origin, out: ByteString, r: Result<ByteString>)
    requires Lawful(env)
  {
    var fc := FileOf(env, o);
    && |fc| <= |out| && env.hash(out[..|fc|]) == env.hash(fc)
    && (out[..|fc|] == fc ==> r == Ok(o.payload))
  }

  lemma HashedIsContainer(env: Env, o: Origin, out: ByteString)
    requires Lawful(env) && |FileOf(env, o)| < TWO_63
    requires GetOriginalData(env, |FileOf(env, o)|, env.hash(FileOf(env, o)), out).Ok?
    ensures FileOrCollision(env, o, out, GetOriginalData(env, |FileOf(env, o)|, env.hash(FileOf(env, o)), out))
  {
    hide Container, GetOriginalData, Lawful;
    var fc := FileOf(env, o);
    OnlyHashedData(env, |fc|, env.hash(fc), out);
    if out[..|fc|] == fc {
      assert out == fc + out[|fc|..];
      ContainerLength(env, ContainerTypeOf(o.kind), o.payload);
      ContainerRoundTrip(env, ContainerTypeOf(o.kind), o.payload, out[|fc|..]);
    }
  }

  /** Whatever the shards are: if the first header is the uploader's, decoding them fails,
      yields the uploaded file, or has found a collision of the hash. */
  lemma OnlyTheFile(
    env: Env, o: Origin, shardMap: map<nat, ByteString>, m: nat, slots: Slots, out: ByteString, r: Result<ByteString>)
    requires Lawful(env) && |FileOf(env, o)| < TWO_63
    requires FirstAnnounces(env, o, shardMap) && m in shardMap
    requires RestoredBy(env, shardMap, m, slots, out, r) && r.Ok?
    ensures FileOrCollision(env, o, out, r)
  {
    hide DecoderOutput, GetOriginalData, Parse, FileOf, Placed, FirstAnnounces, Lawful, FirstShard, FileOrCollision;
    FirstHeader(env, o, shardMap, slots);
    HashedIsContainer(env, o, out);
  }

  // ---- the download ----

  /** From at least `required` honest copies, placed in any order, the client restores
      the uploaded file; exactly unless a browser container has 256 shards.  From any
      other shards it gets that file or nothing, when the first header is the uploader's
      and the decoded bytes are no collision of the hash. */
  method DownloadSharded(env: Env, needed: int, shardMap: map<nat, ByteString>, ghost o: Origin)
    returns (r: Result<ByteString>)
    requires Lawful(env)
    ensures |shardMap| < needed ==> r.Rejected?
    ensures Honest(env, o, shardMap) && |shardMap| >= needed && |shardMap| >= o.required ==>
      (r == Ok(o.payload) <==> TotalFits(o))
    ensures r.Ok? ==> exists m: nat, slots: Slots, out: ByteString ::
      && m in shardMap && RestoredBy(env, shardMap, m, slots, out, r)
      && (FirstAnnounces(env, o, shardMap) && |FileOf(env, o)| < TWO_63 ==> FileOrCollision(env, o, out, r))
  {
    hide StoredCopy, LawfulCode, Lawful, Filled, DecoderOutput, OriginalData, Encodable, Honest, TotalFits, Published,
      FirstAnnounces, Placed, FileOf, FileOrCollision;
    if |shardMap| < needed {
      return Rejected;
    }
    if Honest(env, o, shardMap) {
      HonestIndices(env, o, shardMap);
    }
    var s :- Assemble(env, shardMap, o);
    r := s.Decode(env);
    ghost var slots := s.shards[..];
    if Honest(env, o, shardMap) && |shardMap| >= o.required {
      DecodeReturned(env, o, slots, shardMap.Keys);
    }
    if r.Ok? {
      ghost var m: nat :| m in shardMap && AsksFor(env, shardMap[m], s);
      ghost var out := DecoderOutput(env, s.kind, s.numRequired, s.numTotal, slots).value;
      assert RestoredBy(env, shardMap, m, slots, out, r);
      if FirstAnnounces(env, o, shardMap) && |FileOf(env, o)| < TWO_63 {
        OnlyTheFile(env, o, shardMap, m, slots, out, r);
      }
    }
  }
}
