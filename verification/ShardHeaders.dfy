/** The three shard headers: their bytes, the parsers that read them from a stream,
    and the lengths that they imply. */
module ShardHeaders {
  import opened Arithmetic
  import opened Bytes
  import opened Codecs

  type Hash32 = bs: ByteString | |bs| == HASH_LEN witness Zeros(HASH_LEN)

  // container types and erasure codes, as they stand in the headers
  const MXOR_CONTAINER: Byte := 0
  const BORS_CONTAINER: Byte := 1
  const AORS_CONTAINER: Byte := 2
  const MXOR_2_6: Byte := 2
  const RS_INFECTIOUS: Byte := 4

  const SP_MARKER: Byte := 0x80

  datatype ShardHeader =
    | MxorHeader(flags: Byte, mxorIndex: Byte, mxorLen: Uint32, fcHash: Hash32)
    | BorsHeader(borsTotal: Byte, borsNeeded: Byte, borsIndex: Byte, fcLen: Int64, fcHash: Hash32)
    | AorsHeader(total: Int32, needed: Int32, index: Int32, fcLen: Int64, fcHash: Hash32)
  {
    function ContainerType(): Byte {
      match this
      case MxorHeader(_, _, _, _) => MXOR_CONTAINER
      case BorsHeader(_, _, _, _, _) => BORS_CONTAINER
      case AorsHeader(_, _, _, _, _) => AORS_CONTAINER
    }

    function NumTotal(): int {
      if MxorHeader? then MXOR_TOTAL else if BorsHeader? then borsTotal else total
    }

    function NumRequired(): int {
      if MxorHeader? then MXOR_REQUIRED else if BorsHeader? then borsNeeded else needed
    }

    function ShardIndex(): int {
      if MxorHeader? then mxorIndex else if BorsHeader? then borsIndex else index
    }

    function FileContainerLen(): int {
      if MxorHeader? then mxorLen else fcLen
    }

    /** The shard data between the header and what follows the data. */
    function PayloadLen(): int
      requires NumRequired() != 0
    {
      if MxorHeader? then RoundUp(mxorLen, MXOR_TOTAL) / MXOR_REQUIRED
      else ShareSize(fcLen, NumRequired())
    }

    /** Everything between the header and the signature. */
    function NumBytes(): int
      requires NumRequired() != 0
    {
      if AorsHeader? then PayloadLen() + ShareSize(PayloadLen(), 25) + CRC_LEN else PayloadLen()
    }

    /** The mark that a storage provider leaves on an mxor header. */
    function MarkedAsSP(): ShardHeader {
      if MxorHeader? then this.(flags := if flags >= SP_MARKER then flags else flags + SP_MARKER) else this
    }

    function HeaderLen(): nat {
      if MxorHeader? then 41 else if BorsHeader? then 46 else 62
    }
  }

  function AorsFields(h: ShardHeader): (bs: ByteString)
    requires h.AorsHeader?
    ensures |bs| == 55
  {
    [0, AORS_CONTAINER, RS_INFECTIOUS]
    + BigEndian(Uint32Of(h.total), 4) + BigEndian(Uint32Of(h.needed), 4) + BigEndian(Uint32Of(h.index), 4)
    + BigEndian(Uint64Of(h.fcLen), 8) + h.fcHash
  }

  function ToBytes(env: Env, h: ShardHeader): (bs: ByteString)
    requires Lawful(env)
    ensures |bs| == h.HeaderLen() && bs[1] == h.ContainerType()
  {
    match h
    case MxorHeader(flags, index, len, hash) =>
      [0, MXOR_CONTAINER, flags, MXOR_2_6, index] + BigEndian(len, 4) + hash
    case BorsHeader(total, needed, index, len, hash) =>
      [0, BORS_CONTAINER, RS_INFECTIOUS, total, needed, index] + BigEndian(Uint64Of(len), 8) + hash
    case AorsHeader(_, _, _, _, _) =>
      var fields := AorsFields(h);
      assert DivideRoundUp(55, 25) == 3;
      var protected := fields + RSIParity(env, fields, 25);
      protected + env.Crc(protected)
  }

  // ---- what the parsers accept ----

  function ParseMxor(d: ByteString): Result<ShardHeader> {
    if |d| >= 41 && d[0] == 0 && d[1] == MXOR_CONTAINER && d[3] == MXOR_2_6 then
      BigEndianOfValue(d[5..9]);
      Widths();
      Ok(MxorHeader(d[2], d[4], Value(d[5..9]), d[9..41]))
    else Rejected
  }

  function ParseBors(d: ByteString): Result<ShardHeader> {
    if |d| >= 46 && d[0] == 0 && d[1] == BORS_CONTAINER && d[2] == RS_INFECTIOUS then
      Ok(BorsHeader(d[3], d[4], d[5], Int64At(d, 6), d[14..46]))
    else Rejected
  }

  function AorsAt(d: ByteString): ShardHeader
    requires |d| >= 55
  {
    AorsHeader(Int32At(d, 3), Int32At(d, 7), Int32At(d, 11), Int64At(d, 15), d[23..55])
  }

  /** A wrong checksum sends the source into a repair that indexes past its single
      parity share, and panics. */
  function ParseAors(env: Env, d: ByteString): Result<ShardHeader> {
    if |d| >= 62 && d[0] == 0 && d[1] == AORS_CONTAINER && d[2] == RS_INFECTIOUS then
      if Value(d[58..62]) == env.crc(d[..58]) then Ok(AorsAt(d)) else Panicked
    else Rejected
  }

  function Parse(env: Env, d: ByteString): Result<ShardHeader> {
    if |d| < 2 then Rejected
    else if d[1] == MXOR_CONTAINER then ParseMxor(d)
    else if d[1] == BORS_CONTAINER then ParseBors(d)
    else if d[1] == AORS_CONTAINER then ParseAors(env, d)
    else Rejected
  }

  function Int32At(d: ByteString, i: nat): Int32
    requires i + 4 <= |d|
  {
    BigEndianOfValue(d[i..i + 4]);
    Widths();
    Int32Of(Value(d[i..i + 4]))
  }

  function Int64At(d: ByteString, i: nat): Int64
    requires i + 8 <= |d|
  {
    BigEndianOfValue(d[i..i + 8]);
    Widths();
    Int64Of(Value(d[i..i + 8]))
  }

  // ---- the parsers ----

  method NewMxorHeaderFromReader(r: ByteReader) returns (h: Result<ShardHeader>)
    requires r.Valid() && r.pos == 0
    modifies r
    ensures r.Valid() && h == ParseMxor(r.data) && (h.Ok? ==> r.pos == 41)
  {
    var version :- r.ReadByte();
    if version > 0 { return Rejected; }
    var styp :- r.ReadByte();
    if styp != MXOR_CONTAINER { return Rejected; }
    var flags :- r.ReadByte();
    var ec :- r.ReadByte();
    if ec != MXOR_2_6 { return Rejected; }
    var ix :- r.ReadByte();
    var len :- r.ReadUint(4);
    Widths();
    var hash :- r.ReadExactly(HASH_LEN);
    return Ok(MxorHeader(flags, ix, len, hash));
  }

  method NewBorsHeaderFromReader(r: ByteReader) returns (h: Result<ShardHeader>)
    requires r.Valid() && r.pos == 0
    modifies r
    ensures r.Valid() && h == ParseBors(r.data) && (h.Ok? ==> r.pos == 46)
  {
    var version :- r.ReadByte();
    if version > 0 { return Rejected; }
    var styp :- r.ReadByte();
    if styp != BORS_CONTAINER { return Rejected; }
    var ec :- r.ReadByte();
    if ec != RS_INFECTIOUS { return Rejected; }
    var total :- r.ReadByte();
    var needed :- r.ReadByte();
    var ix :- r.ReadByte();
    var len :- r.ReadUint(8);
    Widths();
    var hash :- r.ReadExactly(HASH_LEN);
    return Ok(BorsHeader(total, needed, ix, Int64Of(len), hash));
  }

  method AorsFromReader(r: ByteReader) returns (h: Result<ShardHeader>)
    requires r.Valid() && r.pos == 0
    modifies r
    ensures r.Valid()
    ensures var d := r.data;
      if |d| >= 58 && d[0] == 0 && d[1] == AORS_CONTAINER && d[2] == RS_INFECTIOUS
      then h == Ok(AorsAt(d)) && r.pos == 58
      else h == Rejected
  {
    var version :- r.ReadByte();
    if version > 0 { return Rejected; }
    var styp :- r.ReadByte();
    if styp != AORS_CONTAINER { return Rejected; }
    var ec :- r.ReadByte();
    if ec != RS_INFECTIOUS { return Rejected; }
    var total :- r.ReadUint(4);
    var needed :- r.ReadUint(4);
    var ix :- r.ReadUint(4);
    var len :- r.ReadUint(8);
    Widths();
    var hash :- r.ReadExactly(HASH_LEN);
    var _ :- r.ReadExactly(3);
    return Ok(AorsHeader(Int32Of(total), Int32Of(needed), Int32Of(ix), Int64Of(len), hash));
  }

  method NewAorHeaderFromReader(env: Env, r: ByteReader) returns (h: Result<ShardHeader>)
    requires r.Valid() && r.pos == 0
    modifies r
    ensures r.Valid() && h == ParseAors(env, r.data) && (h.Ok? ==> r.pos == 62)
  {
    var hdr :- AorsFromReader(r);
    var computedCrc := env.crc(r.data[..r.pos]);
    var crc :- r.ReadUint(CRC_LEN);
    if crc == computedCrc {
      return Ok(hdr);
    }
    return Panicked;
  }

  /** Looks at the container type, rewinds, and parses. */
  method NewShardHeader(env: Env, r: ByteReader) returns (h: Result<ShardHeader>)
    requires r.Valid() && r.pos == 0
    modifies r
    ensures r.Valid() && h == Parse(env, r.data) && (h.Ok? ==> r.pos == h.value.HeaderLen())
  {
    var _ :- r.ReadByte();
    var containerType :- r.ReadByte();
    r.Rewind();
    if containerType == MXOR_CONTAINER {
      h := NewMxorHeaderFromReader(r);
    } else if containerType == BORS_CONTAINER {
      h := NewBorsHeaderFromReader(r);
    } else if containerType == AORS_CONTAINER {
      h := NewAorHeaderFromReader(env, r);
    } else {
      h := Rejected;
    }
  }

  // ---- the layouts ----

  /** Where each field stands in the bytes of a browser header. */
  lemma BrowserLayout(env: Env, h: ShardHeader)
    requires Lawful(env) && !h.AorsHeader?
    ensures var bs := ToBytes(env, h);
      && (h.MxorHeader? ==>
        && |bs| == 41 && bs[0] == 0 && bs[1] == 0 && bs[2] == h.flags && bs[3] == 2
        && bs[4] == h.ShardIndex() && Value(bs[5..9]) == h.FileContainerLen() && bs[9..] == h.fcHash)
      && (h.BorsHeader? ==>
        && |bs| == 46 && bs[0] == 0 && bs[1] == 1 && bs[2] == 4
        && bs[3] == h.NumTotal() && bs[4] == h.NumRequired() && bs[5] == h.ShardIndex()
        && Value(bs[6..14]) == h.FileContainerLen() % TWO_64 && bs[14..] == h.fcHash)
  {
    Widths();
    if h.MxorHeader? {
      ValueOfBigEndian(h.mxorLen, 4);
      assert ToBytes(env, h)[5..9] == BigEndian(h.mxorLen, 4);
    } else {
      ValueOfBigEndian(Uint64Of(h.fcLen), 8);
      assert ToBytes(env, h)[6..14] == BigEndian(Uint64Of(h.fcLen), 8);
    }
  }

  /** ... and of an archive header: three bytes of parity and a checksum come last. */
  lemma ArchiveLayout(env: Env, h: ShardHeader)
    requires Lawful(env) && h.AorsHeader?
    ensures var bs := ToBytes(env, h);
      && |bs| == 62 && bs[0] == 0 && bs[1] == 2 && bs[2] == 4
      && Value(bs[3..7]) == h.NumTotal() % TWO_32 && Value(bs[7..11]) == h.NumRequired() % TWO_32
      && Value(bs[11..15]) == h.ShardIndex() % TWO_32 && Value(bs[15..23]) == h.FileContainerLen() % TWO_64
      && bs[23..55] == h.fcHash && bs[55..58] == RSIParity(env, bs[..55], 25)
      && Value(bs[58..]) == env.crc(bs[..58])
  {
    hide BigEndian, RSIParity;
    var fields, bs := AorsFields(h), ToBytes(env, h);
    Widths();
    AorsFieldValues(h);
    assert DivideRoundUp(55, 25) == 3;
    assert |RSIParity(env, fields, 25)| == 3;
    assert bs[..55] == fields && bs[55..58] == RSIParity(env, fields, 25);
    assert bs[..58] == fields + RSIParity(env, fields, 25);
    assert bs[3..7] == fields[3..7] && bs[7..11] == fields[7..11] && bs[11..15] == fields[11..15];
    assert bs[15..23] == fields[15..23] && bs[23..55] == fields[23..55];
    ValueOfBigEndian(env.crc(bs[..58]), 4);
  }

  lemma AorsFieldValues(h: ShardHeader)
    requires h.AorsHeader?
    ensures var bs := AorsFields(h);
      && bs[0] == 0 && bs[1] == 2 && bs[2] == 4
      && Value(bs[3..7]) == h.total % TWO_32 && Value(bs[7..11]) == h.needed % TWO_32
      && Value(bs[11..15]) == h.index % TWO_32 && Value(bs[15..23]) == h.fcLen % TWO_64 && bs[23..55] == h.fcHash
  {
    hide BigEndian;
    var bs := AorsFields(h);
    Widths();
    assert bs[3..7] == BigEndian(Uint32Of(h.total), 4);
    assert bs[7..11] == BigEndian(Uint32Of(h.needed), 4);
    assert bs[11..15] == BigEndian(Uint32Of(h.index), 4);
    assert bs[15..23] == BigEndian(Uint64Of(h.fcLen), 8);
    AorsFieldsRead(h, []);
    assert bs + [] == bs;
    ValueOfBigEndian(Uint32Of(h.total), 4);
    ValueOfBigEndian(Uint32Of(h.needed), 4);
    ValueOfBigEndian(Uint32Of(h.index), 4);
    ValueOfBigEndian(Uint64Of(h.fcLen), 8);
  }

  /** The mark is the highest bit of the flags of an mxor header; nothing else changes,
      and marking twice is marking once. */
  lemma MarkIsOneBit(h: ShardHeader)
    ensures var m := h.MarkedAsSP();
      && m.MarkedAsSP() == m
      && (h.MxorHeader? ==>
        && m.MxorHeader? && m.flags == 128 + h.flags % 128
        && m.mxorIndex == h.mxorIndex && m.mxorLen == h.mxorLen && m.fcHash == h.fcHash)
      && (!h.MxorHeader? ==> m == h)
  {
  }

  // ---- round trips ----

  lemma Int32RoundTrip(d: ByteString, i: nat, n: Int32)
    requires i + 4 <= |d| && d[i..i + 4] == BigEndian(Uint32Of(n), 4)
    ensures Int32At(d, i) == n
  {
    Widths();
    ValueOfBigEndian(Uint32Of(n), 4);
  }

  lemma Int64RoundTrip(d: ByteString, i: nat, n: Int64)
    requires i + 8 <= |d| && d[i..i + 8] == BigEndian(Uint64Of(n), 8)
    ensures Int64At(d, i) == n
  {
    Widths();
    ValueOfBigEndian(Uint64Of(n), 8);
  }

  lemma MxorRoundTrip(env: Env, h: ShardHeader, rest: ByteString)
    requires Lawful(env) && h.MxorHeader?
    ensures ParseMxor(ToBytes(env, h) + rest) == Ok(h)
  {
    var d := ToBytes(env, h) + rest;
    Widths();
    ValueOfBigEndian(h.mxorLen, 4);
    assert d[5..9] == BigEndian(h.mxorLen, 4);
    assert d[9..41] == h.fcHash;
  }

  lemma BorsRoundTrip(env: Env, h: ShardHeader, rest: ByteString)
    requires Lawful(env) && h.BorsHeader?
    ensures ParseBors(ToBytes(env, h) + rest) == Ok(h)
  {
    var d := ToBytes(env, h) + rest;
    Int64RoundTrip(d, 6, h.fcLen);
    assert d[14..46] == h.fcHash;
  }

  lemma AorsFieldsRead(h: ShardHeader, rest: ByteString)
    requires h.AorsHeader?
    ensures AorsAt(AorsFields(h) + rest) == h
  {
    hide BigEndian;
    var d := AorsFields(h) + rest;
    assert d[3..7] == BigEndian(Uint32Of(h.total), 4);
    assert d[7..11] == BigEndian(Uint32Of(h.needed), 4);
    assert d[11..15] == BigEndian(Uint32Of(h.index), 4);
    assert d[15..23] == BigEndian(Uint64Of(h.fcLen), 8);
    assert d[23..55] == h.fcHash;
    Int32RoundTrip(d, 3, h.total);
    Int32RoundTrip(d, 7, h.needed);
    Int32RoundTrip(d, 11, h.index);
    Int64RoundTrip(d, 15, h.fcLen);
  }

  lemma AorsRoundTrip(env: Env, h: ShardHeader, rest: ByteString)
    requires Lawful(env) && h.AorsHeader?
    ensures ParseAors(env, ToBytes(env, h) + rest) == Ok(h)
  {
    var d := ToBytes(env, h) + rest;
    var fields := AorsFields(h);
    var parity := RSIParity(env, fields, 25);
    var protected := fields + parity;
    assert DivideRoundUp(55, 25) == 3;
    assert d[..58] == protected && d[58..62] == env.Crc(protected);
    Widths();
    ValueOfBigEndian(env.crc(protected), 4);
    assert d == fields + (parity + env.Crc(protected) + rest);
    AorsFieldsRead(h, parity + env.Crc(protected) + rest);
    assert fields[..3] == [0, AORS_CONTAINER, RS_INFECTIOUS];
    assert d[..3] == fields[..3];
  }

  /** Every header is read back from its own bytes, whatever follows them. */
  lemma HeaderRoundTrip(env: Env, h: ShardHeader, rest: ByteString)
    requires Lawful(env)
    ensures Parse(env, ToBytes(env, h) + rest) == Ok(h)
  {
    assert (ToBytes(env, h) + rest)[1] == ToBytes(env, h)[1];
    match h {
      case MxorHeader(_, _, _, _) => MxorRoundTrip(env, h, rest);
      case BorsHeader(_, _, _, _, _) => BorsRoundTrip(env, h, rest);
      case AorsHeader(_, _, _, _, _) => AorsRoundTrip(env, h, rest);
    }
  }

  lemma IntBytes(d: ByteString, i: nat)
    requires i + 8 <= |d|
    ensures BigEndian(Uint32Of(Int32At(d, i)), 4) == d[i..i + 4]
    ensures BigEndian(Uint64Of(Int64At(d, i)), 8) == d[i..i + 8]
  {
    Widths();
    BigEndianOfValue(d[i..i + 4]);
    BigEndianOfValue(d[i..i + 8]);
  }

  /** What a parser accepts, the writer reproduces; of the archive header only the
      parity bytes, which the parser skips, may differ. */
  lemma ParsedBytes(env: Env, d: ByteString)
    requires Lawful(env) && Parse(env, d).Ok?
    ensures var h := Parse(env, d).value;
      && |d| >= h.HeaderLen()
      && (!h.AorsHeader? ==> ToBytes(env, h) == d[..h.HeaderLen()])
      && (h.AorsHeader? ==> AorsFields(h) == d[..55])
      && (h.AorsHeader? ==> (ToBytes(env, h) == d[..62] <==> d[55..58] == RSIParity(env, d[..55], 25)))
  {
    var h := Parse(env, d).value;
    match h {
      case MxorHeader(_, _, _, _) =>
        BigEndianOfValue(d[5..9]);
        assert ToBytes(env, h) == d[..41];
      case BorsHeader(_, _, _, _, _) =>
        IntBytes(d, 6);
        assert ToBytes(env, h) == d[..46];
      case AorsHeader(_, _, _, _, _) =>
        ParsedAors(env, d);
    }
  }

  lemma AorsFieldsWritten(d: ByteString)
    requires |d| >= 62 && d[0] == 0 && d[1] == AORS_CONTAINER && d[2] == RS_INFECTIOUS
    ensures AorsFields(AorsAt(d)) == d[..55]
  {
    IntBytes(d, 3);
    IntBytes(d, 7);
    IntBytes(d, 11);
    IntBytes(d, 15);
    hide BigEndian, Int32At, Int64At;
    assert [0, AORS_CONTAINER, RS_INFECTIOUS] == d[0..3];
    Join(d, 3, 7);
    Join(d, 7, 11);
    Join(d, 11, 15);
    Join(d, 15, 23);
    Join(d, 23, 55);
    assert d[0..55] == d[..55];
  }

  lemma Join(d: ByteString, i: nat, j: nat)
    requires i <= j <= |d|
    ensures d[0..i] + d[i..j] == d[0..j]
  {
  }

  lemma ParsedAors(env: Env, d: ByteString)
    requires Lawful(env) && ParseAors(env, d).Ok?
    ensures var h := AorsAt(d);
      && AorsFields(h) == d[..55]
      && (ToBytes(env, h) == d[..62] <==> d[55..58] == RSIParity(env, d[..55], 25))
  {
    AorsFieldsWritten(d);
    BigEndianOfValue(d[58..62]);
    hide AorsAt, AorsFields, BigEndian, RSIParity;
    var h := AorsAt(d);
    var parity := RSIParity(env, d[..55], 25);
    assert DivideRoundUp(55, 25) == 3;
    assert ToBytes(env, h)[55..58] == parity;
    assert d[..62][55..58] == d[55..58];
    if d[55..58] == parity {
      assert d[..58] == d[..55] + parity;
      assert ToBytes(env, h) == d[..58] + d[58..62];
    }
  }

  // ---- share sizes ----

  /** The share size is the ceiling of the quotient. */
  lemma ShareSizeIsCeiling(inputSize: nat, required: nat)
    requires required > 0
    ensures ShareSize(inputSize, required) == DivideRoundUp(inputSize, required)
    ensures inputSize <= required * ShareSize(inputSize, required) < inputSize + required
  {
    CeilBounds(inputSize, required);
  }
}
