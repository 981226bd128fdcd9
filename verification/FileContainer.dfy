/** The signed container around a file: header, payload, redundancy, signature. */
module FileContainer {
  import opened Bytes
  import opened Codecs

  const BROWSER_OPTIMIZED: Byte := 1
  const ARCHIVE_OPTIMIZED: Byte := 2

  predicate KnownType(fct: Byte) {
    fct == BROWSER_OPTIMIZED || fct == ARCHIVE_OPTIMIZED
  }

  function HdrLen(fct: Byte): nat {
    if fct == BROWSER_OPTIMIZED then 4 else if fct == ARCHIVE_OPTIMIZED then 4 + 1 + CRC_LEN else 0
  }

  function TaiLen(fct: Byte): nat {
    if KnownType(fct) then 4 + SIGNATURE_LEN else 0
  }

  /** The end of the payload, computed from the length of the container alone; the
      division is on 64-bit unsigned integers. */
  function PayLoadEnd(fct: Byte, fcLen: int): int {
    if fct == BROWSER_OPTIMIZED then fcLen - TaiLen(fct)
    else if fct == ARCHIVE_OPTIMIZED then
      var payloadAndParity := fcLen - (HdrLen(fct) + TaiLen(fct));
      var parityLen := ((payloadAndParity + 25) % TWO_64) / 26;
      fcLen - parityLen - TaiLen(fct)
    else 0
  }

  function Header(fct: Byte): ByteString {
    [0, fct, 0, 0]
  }

  /** What stands before and after the payload, without the signature. */
  function Front(env: Env, fct: Byte): ByteString
    requires Lawful(env)
  {
    if fct == ARCHIVE_OPTIMIZED then
      var protected := Header(fct) + RSIParity(env, Header(fct), 4);
      protected + env.Crc(protected)
    else Header(fct)
  }

  function Back(env: Env, fct: Byte, payload: ByteString): ByteString
    requires Lawful(env)
  {
    if fct == ARCHIVE_OPTIMIZED then
      var parity := RSIParity(env, payload, 25);
      parity + env.Crc(payload + parity)
    else
      var size := |Front(env, fct)| + |payload| + 4 + SIGNATURE_LEN;
      env.hash(Header(fct) + BigEndian(size % 0x10000, 4))[..4]
  }

  function Unsigned(env: Env, fct: Byte, payload: ByteString): ByteString
    requires Lawful(env)
  {
    Front(env, fct) + payload + Back(env, fct, payload)
  }

  function Container(env: Env, fct: Byte, payload: ByteString): ByteString
    requires Lawful(env)
  {
    Unsigned(env, fct, payload) + env.sign(env.hash(Unsigned(env, fct, payload)))
  }

  method WriteFront(env: Env, fct: Byte, w: HashingWriter)
    requires Lawful(env) && KnownType(fct) && w.toData == w.toHash == []
    modifies w
    ensures w.toData == w.toHash == Front(env, fct)
  {
    var hdr := Header(fct);
    w.Write(hdr);
    assert w.toData == hdr;
    if fct == ARCHIVE_OPTIMIZED {
      var p := RSIParity(env, hdr, 4);
      w.Write(p);
      assert w.toData == hdr + p;
      w.Write(env.Crc(w.toData));
    }
  }

  method WriteBack(env: Env, fct: Byte, w: HashingWriter, startOfPayload: nat, ghost payload: ByteString)
    requires Lawful(env) && KnownType(fct) && w.toData == w.toHash == Front(env, fct) + payload
    requires startOfPayload == |Front(env, fct)|
    modifies w
    ensures w.toData == w.toHash == Unsigned(env, fct, payload)
  {
    hide RSIParity, Front;
    var start := w.toData;
    assert start[startOfPayload..] == payload;
    if fct == ARCHIVE_OPTIMIZED {
      var p := RSIParity(env, w.toData[startOfPayload..], 25);
      w.Write(p);
      assert w.toData[startOfPayload..] == payload + p;
      var crc := env.Crc(w.toData[startOfPayload..]);
      w.Write(crc);
      assert start + p + crc == start + (p + crc);
    } else {
      var size := |w.toData| + 4 + SIGNATURE_LEN;
      w.Write(env.hash(Header(fct) + BigEndian(size % 0x10000, 4))[..4]);
    }
  }

  /** The writer builds the container front to back and signs the hash of all that it
      has written. */
  method CreateContainerBytes(env: Env, fct: Byte, payload: ByteString)
    returns (container: ByteString, signature: ByteString, hash: ByteString)
    requires Lawful(env) && KnownType(fct)
    ensures container == Container(env, fct, payload)
    ensures signature == env.sign(env.hash(Unsigned(env, fct, payload)))
    ensures hash == env.hash(container)
  {
    hide Front, Unsigned;
    var w := new HashingWriter();
    WriteFront(env, fct, w);
    var startOfPayload := |w.toData|;
    w.Write(payload);
    WriteBack(env, fct, w, startOfPayload, payload);
    signature := env.sign(env.hash(w.toHash));
    w.Write(signature);
    container, hash := w.toData, env.hash(w.toHash);
  }

  /** The length of a container follows from the length of its payload. */
  function ContainerLen(fct: Byte, payloadLen: nat): nat {
    HdrLen(fct) + payloadLen + (if fct == ARCHIVE_OPTIMIZED then DivideRoundUp(payloadLen, 25) else 0) + TaiLen(fct)
  }

  lemma ContainerLength(env: Env, fct: Byte, payload: ByteString)
    requires Lawful(env) && KnownType(fct)
    ensures |Front(env, fct)| == HdrLen(fct)
    ensures |Container(env, fct, payload)| == ContainerLen(fct, |payload|)
  {
    assert DivideRoundUp(4, 4) == 1;
  }

  /** What stands where in a browser container. */
  lemma BrowserContainer(env: Env, payload: ByteString)
    requires Lawful(env)
    ensures var c, end := Container(env, BROWSER_OPTIMIZED, payload), 4 + |payload|;
      && |c| == end + 69
      && c[..4] == [0, 1, 0, 0] && c[4..end] == payload
      && c[end..end + 4] == env.hash([0, 1, 0, 0] + BigEndian(|c| % 0x10000, 4))[..4]
      && c[end + 4..] == env.sign(env.hash(c[..end + 4]))
  {
    ContainerLength(env, BROWSER_OPTIMIZED, payload);
    var c, unsigned := Container(env, BROWSER_OPTIMIZED, payload), Unsigned(env, BROWSER_OPTIMIZED, payload);
    assert c[..|unsigned|] == unsigned;
  }

  /** ... and in an archive container: a parity byte and a checksum of the header, a
      parity block and a checksum of the payload. */
  lemma ArchiveContainer(env: Env, payload: ByteString)
    requires Lawful(env)
    ensures var c, end := Container(env, ARCHIVE_OPTIMIZED, payload), 9 + |payload|;
      var parityEnd := end + DivideRoundUp(|payload|, 25);
      && |c| == parityEnd + 69
      && c[..4] == [0, 2, 0, 0] && c[4..5] == RSIParity(env, c[..4], 4) && Value(c[5..9]) == env.crc(c[..5])
      && c[9..end] == payload && c[end..parityEnd] == RSIParity(env, payload, 25)
      && Value(c[parityEnd..parityEnd + 4]) == env.crc(c[9..parityEnd])
      && c[parityEnd + 4..] == env.sign(env.hash(c[..parityEnd + 4]))
  {
    hide RSIParity, BigEndian, Container, Front, LawfulDigests;
    var fct: Byte, header := ARCHIVE_OPTIMIZED, [0, 2, 0, 0];
    ContainerLength(env, fct, payload);
    var headerParity, parity := RSIParity(env, header, 4), RSIParity(env, payload, 25);
    assert Header(fct) == header && DivideRoundUp(4, 4) == 1;
    ArchiveParts(env, header, headerParity, payload, parity);
    CrcValue(env, header + headerParity);
    CrcValue(env, payload + parity);
  }

  lemma ArchiveParts(
    env: Env, header: ByteString, headerParity: ByteString, payload: ByteString, parity: ByteString)
    requires Lawful(env) && |header| == 4 && header == Header(ARCHIVE_OPTIMIZED) && |headerParity| == 1
    requires headerParity == RSIParity(env, header, 4) && parity == RSIParity(env, payload, 25)
    ensures var c, end := Container(env, ARCHIVE_OPTIMIZED, payload), 9 + |payload|;
      var parityEnd := end + |parity|;
      && |c| >= parityEnd + 4
      && c[..4] == header && c[4..5] == headerParity && c[5..9] == env.Crc(header + headerParity)
      && c[9..end] == payload && c[end..parityEnd] == parity
      && c[parityEnd..parityEnd + 4] == env.Crc(payload + parity)
      && c[..5] == header + headerParity && c[9..parityEnd] == payload + parity
      && c[parityEnd + 4..] == env.sign(env.hash(c[..parityEnd + 4]))
  {
    hide RSIParity, BigEndian, LawfulDigests;
    var front := header + headerParity + env.Crc(header + headerParity);
    var back := parity + env.Crc(payload + parity);
    var unsigned := front + payload + back;
    assert unsigned == Unsigned(env, ARCHIVE_OPTIMIZED, payload);
    var c := Container(env, ARCHIVE_OPTIMIZED, payload);
    assert c[..|unsigned|] == unsigned;
    assert c[..9] == front;
    assert front[..5] == header + headerParity;
    assert c[9..] == payload + back + env.sign(env.hash(unsigned));
  }

  /** The ceiling of p/25 is recovered from p plus itself. */
  lemma ParityLenInverted(p: nat)
    ensures DivideRoundUp(p + DivideRoundUp(p, 25), 26) == DivideRoundUp(p, 25)
  {
  }

  /** The reader, which knows only the total length, finds the payload exactly. */
  lemma PayloadLocated(fct: Byte, payloadLen: nat)
    requires KnownType(fct) && ContainerLen(fct, payloadLen) < TWO_63
    ensures PayLoadEnd(fct, ContainerLen(fct, payloadLen)) == HdrLen(fct) + payloadLen
  {
    ParityLenInverted(payloadLen);
  }

  /** Containers of different payload lengths have different lengths. */
  lemma ContainerLenInjective(fct: Byte, p: nat, q: nat)
    requires KnownType(fct)
    ensures ContainerLen(fct, p) == ContainerLen(fct, q) <==> p == q
  {
  }

  /** `container` may end with padding; `fcLen` and `fcHash` come from a shard header. */
  function GetOriginalData(env: Env, fcLen: int, fcHash: ByteString, container: ByteString): Result<ByteString> {
    if |container| < fcLen then Rejected
    else if |container| < 2 then Panicked
    else
      var fct := container[1];
      if |container| < HdrLen(fct) || !KnownType(fct) then Rejected
      else if fct == ARCHIVE_OPTIMIZED && env.Crc(container[..5]) != container[5..5 + CRC_LEN] then Rejected
      else if fcLen < 0 then Panicked
      else if env.hash(container[..fcLen]) != fcHash then Rejected
      else
        var end := PayLoadEnd(fct, fcLen);
        if HdrLen(fct) <= end <= |container| then Ok(container[HdrLen(fct)..end]) else Panicked
  }

  /** The reader accepts exactly a container of a known type whose first `fcLen` bytes
      have the recorded hash, with a right checksum in the header of an archive. */
  lemma ReadableExactly(env: Env, fcLen: int, fcHash: ByteString, c: ByteString)
    requires Lawful(env)
    ensures GetOriginalData(env, fcLen, fcHash, c).Ok? <==>
      && 0 <= fcLen <= |c| && |c| >= 4 && (c[1] == 1 || c[1] == 2)
      && (c[1] == 2 ==> |c| >= 9 && Value(c[5..9]) == env.crc(c[..5]))
      && env.hash(c[..fcLen]) == fcHash
      && HdrLen(c[1]) <= PayLoadEnd(c[1], fcLen) <= |c|
  {
    if |c| >= 9 {
      CrcValue(env, c[..5]);
      BigEndianOfValue(c[5..9]);
    }
    hide BigEndian, PayLoadEnd;
  }

  /** The front of a container passes the checks of the reader. */
  lemma FrontReadable(env: Env, fct: Byte, rest: ByteString)
    requires Lawful(env) && KnownType(fct)
    ensures var c := Front(env, fct) + rest;
      && |c| >= HdrLen(fct) >= 4 && c[1] == fct
      && (fct == ARCHIVE_OPTIMIZED ==> env.Crc(c[..5]) == c[5..5 + CRC_LEN])
  {
    var front := Front(env, fct);
    var c := front + rest;
    if fct == ARCHIVE_OPTIMIZED {
      var protected := Header(fct) + RSIParity(env, Header(fct), 4);
      assert DivideRoundUp(4, 4) == 1;
      assert front[..5] == protected && front[5..9] == env.Crc(protected);
      assert c[..5] == front[..5] && c[5..9] == front[5..9];
    }
  }

  /** Whatever pads a container, reading it gives the file back. */
  lemma ContainerRoundTrip(env: Env, fct: Byte, payload: ByteString, padding: ByteString)
    requires Lawful(env) && KnownType(fct) && ContainerLen(fct, |payload|) < TWO_63
    ensures var c := Container(env, fct, payload);
      GetOriginalData(env, |c|, env.hash(c), c + padding) == Ok(payload)
  {
    hide Front, Back, RSIParity;
    var c := Container(env, fct, payload);
    ContainerLength(env, fct, payload);
    PayloadLocated(fct, |payload|);
    var front, padded := Front(env, fct), c + padding;
    var rest := payload + Back(env, fct, payload) + env.sign(env.hash(Unsigned(env, fct, payload))) + padding;
    assert padded == front + rest;
    FrontReadable(env, fct, rest);
    assert padded[..|c|] == c;
    assert padded[|front|..|front| + |payload|] == payload;
  }

  /** Whatever is returned is a stretch of bytes whose hash is the recorded one. */
  lemma OnlyHashedData(env: Env, fcLen: int, fcHash: ByteString, container: ByteString)
    requires GetOriginalData(env, fcLen, fcHash, container).Ok?
    ensures 0 <= fcLen <= |container| && env.hash(container[..fcLen]) == fcHash
    ensures (exists i, j | 0 <= i <= j <= fcLen ::
               GetOriginalData(env, fcLen, fcHash, container).value == container[..fcLen][i..j])
  {
    var i, j := HdrLen(container[1]), PayLoadEnd(container[1], fcLen);
    assert container[i..j] == container[..fcLen][i..j];
  }
}
