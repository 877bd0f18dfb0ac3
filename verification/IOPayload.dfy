/** The DATA payload of a file transfer (src/common/transfer.cpp): a 64-byte prefix that holds the
    serialized TransferPayload, followed by the bytes, compressed or not. LZ4 is a pair of functions. */
module IOPayload {
  import opened Bytes
  import opened Varint
  import opened WireMessages

  const RESERVE: nat := 64            // payloadPrefixReserve
  const MAX_SIZE_IOBUF: nat := 523264
  const COMPRESS_NONE: nat := 0
  const COMPRESS_LZ4: nat := 1

  /** LZ4_compress_default into as many bytes as there are (empty when it declines), and
      LZ4_decompress_safe into at most the given number of bytes (None for a negative result). */
  datatype Codec = Codec(compress: seq<byte> -> seq<byte>, decompress: (seq<byte>, nat) -> Option<seq<byte>>)

  ghost predicate Lossless(c: Codec)
  {
    forall x :: c.compress(x) != [] ==>
      |c.compress(x)| <= |x| && c.decompress(c.compress(x), |x|) == Some(x)
  }

  /** The compression type and the bytes that go out; a build without LZ4 has no codec. */
  function Outgoing(codec: Option<Codec>, compressType: nat, data: seq<byte>): (nat, seq<byte>)
  {
    if data == [] || compressType != COMPRESS_LZ4 || codec.None? then (compressType, data)
    else
      var packed := codec.value.compress(data);
      if packed == [] then (COMPRESS_NONE, data) else (COMPRESS_LZ4, packed)
  }

  /** The serialized head, zeros up to the end of the prefix, and the body. */
  function Headed(head: TransferPayload, body: seq<byte>): seq<byte>
  {
    var h := head.ToBytes();
    h + Zeros(if |h| < RESERVE then RESERVE - |h| else 0) + body
  }

  function HeadOf(codec: Option<Codec>, compressType: nat, index: nat, data: seq<byte>): TransferPayload
  {
    var (kind, body) := Outgoing(codec, compressType, data);
    TransferPayload(index, kind, |body|, |data|)
  }

  /** What a piece of a file may be: any offset, at most one IO buffer. */
  predicate Sendable(compressType: nat, index: nat, data: seq<byte>)
  {
    compressType < 256 && index < TWO64 && |data| <= MAX_SIZE_IOBUF
  }

  lemma HeadFits(codec: Option<Codec>, compressType: nat, index: nat, data: seq<byte>)
    requires Sendable(compressType, index, data) && (codec.Some? ==> Lossless(codec.value))
    ensures var h := HeadOf(codec, compressType, index, data); h.Fits() && |h.ToBytes()| < RESERVE
  {
    TransferPayloadLength(HeadOf(codec, compressType, index, data));
  }

  /** LZ4 packs exactly when it is asked for, there, and does not decline; declining says so. */
  lemma OutgoingMeans(codec: Option<Codec>, compressType: nat, data: seq<byte>)
    ensures
      var asked := data != [] && compressType == 1 && codec.Some?;
      var packed := if asked then codec.value.compress(data) else [];
      Outgoing(codec, compressType, data) ==
        (if asked && packed == [] then 0 else compressType, if packed != [] then packed else data)
  {
  }

  /** A payload on the wire: offset, kind, size of the body and size of the data under fields 1 to 4, zeros up
      to byte 64, the body. */
  lemma HeadedBytes(head: TransferPayload, body: seq<byte>)
    requires head.Fits()
    ensures
      var h := [0x08] + Encode(head.index) + [0x10] + Encode(head.compressType)
               + [0x18] + Encode(head.compressSize) + [0x20] + Encode(head.uncompressSize);
      |h| < 64 && Headed(head, body) == h + Zeros(64 - |h|) + body
  {
    TransferPayloadLength(head);
    TransferPayloadBytes(head);
  }

  /** And what a piece of a file puts there: its offset, the kind, the size of what is sent and its own size. */
  lemma PieceBytes(codec: Option<Codec>, compressType: nat, index: nat, data: seq<byte>)
    requires Sendable(compressType, index, data) && (codec.Some? ==> Lossless(codec.value))
    ensures var (kind, body), head := Outgoing(codec, compressType, data), HeadOf(codec, compressType, index, data);
      && head.Fits() && head.index == index && head.compressType == kind
      && head.compressSize == |body| <= |data| && head.uncompressSize == |data|
  {
    HeadFits(codec, compressType, index, data);
  }

  /** The bytes behind the head, as the receiver clears them. */
  function Clear(codec: Option<Codec>, head: TransferPayload, body: seq<byte>): Option<seq<byte>>
  {
    if body == [] then Some([])
    else if head.compressType == COMPRESS_LZ4 && codec.Some? then codec.value.decompress(body, head.uncompressSize)
    else Some(body)
  }

  /** RecvIOPayload up to the file request: the offset and the bytes to write, None where it fails. */
  function RecvIOPayload(codec: Option<Codec>, s: seq<byte>): Option<(nat, seq<byte>)>
  {
    if |s| < RESERVE then None
    else
      var pld := ParseTransferPayload(s[..RESERVE]);
      if pld.compressSize > |s| - RESERVE || pld.uncompressSize > MAX_SIZE_IOBUF then None
      else
        var body := s[RESERVE..RESERVE + pld.compressSize];
        var clear := Clear(codec, pld, body);
        if clear.None? || |clear.value| != pld.uncompressSize then None
        else Some((pld.index, clear.value))
  }

  /** Whatever the bytes received, what comes of them fits one IO buffer, and unless LZ4 unpacked it, it
      is the part of the message right behind the prefix. */
  lemma RecvSound(codec: Option<Codec>, s: seq<byte>)
    requires RecvIOPayload(codec, s).Some?
    ensures var (index, data) := RecvIOPayload(codec, s).value;
      && |s| >= RESERVE && |data| <= MAX_SIZE_IOBUF
      && (codec.None? || ParseTransferPayload(s[..RESERVE]).compressType != COMPRESS_LZ4 ==>
            RESERVE + |data| <= |s| && data == s[RESERVE..RESERVE + |data|])
  {
    var pld := ParseTransferPayload(s[..RESERVE]);
    var body := s[RESERVE..RESERVE + pld.compressSize];
    assert Clear(codec, pld, body).Some?;
  }

  /** The bytes are put behind the reserved prefix of their buffer. The head goes into that prefix, or
      into that of a second buffer when LZ4 packs the bytes. What is sent is the same in both cases:
      head, zeros, body. The prefix must be zero, as Malloc leaves it. */
  method SendIOPayload(codec: Option<Codec>, compressType: nat, index: nat, buf: array<byte>, dataSize: nat)
    returns (sent: seq<byte>)
    requires RESERVE + dataSize <= buf.Length && forall i :: 0 <= i < RESERVE ==> buf[i] == 0
    requires Sendable(compressType, index, buf[RESERVE..RESERVE + dataSize])
    requires codec.Some? ==> Lossless(codec.value)
    modifies buf
    ensures buf[RESERVE..] == old(buf[RESERVE..])
    ensures var data := old(buf[RESERVE..RESERVE + dataSize]);
      var head := HeadOf(codec, compressType, index, data);
      |head.ToBytes()| < RESERVE && sent == Headed(head, Outgoing(codec, compressType, data).1)
  {
    var head, sendBuf := MakeHead(codec, compressType, index, buf, dataSize);
    sent := SendHeaded(sendBuf, head);
  }

  method SendHeaded(sendBuf: array<byte>, head: TransferPayload) returns (sent: seq<byte>)
    requires |head.ToBytes()| < RESERVE && RESERVE + head.compressSize <= sendBuf.Length
    requires forall i :: 0 <= i < RESERVE ==> sendBuf[i] == 0
    modifies sendBuf
    ensures sent == Headed(head, old(sendBuf[RESERVE..RESERVE + head.compressSize]))
    ensures sendBuf[RESERVE..] == old(sendBuf[RESERVE..])
  {
    sent := Prefixed(sendBuf, head.ToBytes(), head.compressSize);
  }

  /** The head, and the buffer that has the body behind its prefix. */
  method MakeHead(codec: Option<Codec>, compressType: nat, index: nat, buf: array<byte>, dataSize: nat)
    returns (head: TransferPayload, sendBuf: array<byte>)
    requires RESERVE + dataSize <= buf.Length && forall i :: 0 <= i < RESERVE ==> buf[i] == 0
    requires Sendable(compressType, index, buf[RESERVE..RESERVE + dataSize])
    requires codec.Some? ==> Lossless(codec.value)
    ensures sendBuf == buf || fresh(sendBuf)
    ensures RESERVE + head.compressSize <= sendBuf.Length && forall i :: 0 <= i < RESERVE ==> sendBuf[i] == 0
    ensures head == HeadOf(codec, compressType, index, buf[RESERVE..RESERVE + dataSize]) && |head.ToBytes()| < RESERVE
    ensures sendBuf[RESERVE..RESERVE + head.compressSize] == Outgoing(codec, compressType, buf[RESERVE..RESERVE + dataSize]).1
  {
    HeadFits(codec, compressType, index, buf[RESERVE..RESERVE + dataSize]);
    var kind, compressSize;
    kind, compressSize, sendBuf := Pack(codec, compressType, buf, dataSize);
    head := TransferPayload(index, kind, compressSize, dataSize);
    assert |sendBuf[RESERVE..RESERVE + compressSize]| == compressSize && |buf[RESERVE..RESERVE + dataSize]| == dataSize;
  }

  /** The buffer to send from: the given one, or a new one with the packed bytes. */
  method Pack(codec: Option<Codec>, compressType: nat, buf: array<byte>, dataSize: nat)
    returns (kind: nat, compressSize: nat, sendBuf: array<byte>)
    requires RESERVE + dataSize <= buf.Length && forall i :: 0 <= i < RESERVE ==> buf[i] == 0
    requires codec.Some? ==> Lossless(codec.value)
    ensures sendBuf == buf || fresh(sendBuf)
    ensures RESERVE + compressSize <= sendBuf.Length && forall i :: 0 <= i < RESERVE ==> sendBuf[i] == 0
    ensures (kind, sendBuf[RESERVE..RESERVE + compressSize]) == Outgoing(codec, compressType, buf[RESERVE..RESERVE + dataSize])
  {
    kind, compressSize, sendBuf := compressType, dataSize, buf;
    if dataSize > 0 && compressType == COMPRESS_LZ4 && codec.Some? {
      var packed := codec.value.compress(buf[RESERVE..RESERVE + dataSize]);
      if packed == [] {
        kind := COMPRESS_NONE;
      } else {
        compressSize := |packed|;
        sendBuf := Zeroed(RESERVE + dataSize, packed);
      }
    }
  }

  /** A new zeroed buffer with the packed bytes behind the prefix. */
  method Zeroed(length: nat, packed: seq<byte>) returns (a: array<byte>)
    requires RESERVE + |packed| <= length
    ensures fresh(a) && a.Length == length && (forall i :: 0 <= i < RESERVE ==> a[i] == 0)
    ensures a[RESERVE..RESERVE + |packed|] == packed
  {
    a := new byte[length](i requires 0 <= i < length =>
      if RESERVE <= i < RESERVE + |packed| then packed[i - RESERVE] else 0);
  }

  /** The packet: the head written into the zeroed prefix, and the bytes behind it. */
  method Prefixed(sendBuf: array<byte>, head: seq<byte>, size: nat) returns (sent: seq<byte>)
    requires |head| < RESERVE && RESERVE + size <= sendBuf.Length && forall i :: 0 <= i < RESERVE ==> sendBuf[i] == 0
    modifies sendBuf
    ensures sent == head + Zeros(RESERVE - |head|) + old(sendBuf[RESERVE..RESERVE + size])
    ensures sendBuf[RESERVE..] == old(sendBuf[RESERVE..])
  {
    WriteHead(sendBuf, head);
    sent := sendBuf[..RESERVE + size];
    assert sent == sendBuf[..RESERVE] + sendBuf[RESERVE..RESERVE + size];
  }

  /** memcpy of the head and its terminating NUL into the zeroed prefix. */
  method WriteHead(sendBuf: array<byte>, head: seq<byte>)
    requires |head| < RESERVE <= sendBuf.Length && forall i :: 0 <= i < RESERVE ==> sendBuf[i] == 0
    modifies sendBuf
    ensures sendBuf[..RESERVE] == head + Zeros(RESERVE - |head|)
    ensures forall i :: RESERVE <= i < sendBuf.Length ==> sendBuf[i] == old(sendBuf[i])
  {
    forall i | 0 <= i <= |head| {
      sendBuf[i] := if i < |head| then head[i] else 0;
    }
  }

  lemma ParseHeaded(head: TransferPayload, body: seq<byte>)
    requires head.Fits() && |head.ToBytes()| <= RESERVE
    ensures var s := Headed(head, body);
      |s| == RESERVE + |body| && ParseTransferPayload(s[..RESERVE]) == head && s[RESERVE..] == body
  {
    var s := Headed(head, body);
    var pad := RESERVE - |head.ToBytes()|;
    assert s[..RESERVE] == head.ToBytes() + Zeros(pad);
    TransferPayloadRoundTrip(head, pad);
  }

  lemma RecvHeaded(codec: Option<Codec>, head: TransferPayload, body: seq<byte>)
    requires head.Fits() && |head.ToBytes()| <= RESERVE && head.compressSize == |body| && head.uncompressSize <= MAX_SIZE_IOBUF
    ensures RecvIOPayload(codec, Headed(head, body)) ==
      (var clear := Clear(codec, head, body);
       if clear.None? || |clear.value| != head.uncompressSize then None else Some((head.index, clear.value)))
  {
    ParseHeaded(head, body);
    assert Headed(head, body)[RESERVE..RESERVE + |body|] == body;
  }

  /** Nothing larger than an IO buffer is taken. */
  lemma RecvTooLarge(codec: Option<Codec>, head: TransferPayload, body: seq<byte>)
    requires head.Fits() && |head.ToBytes()| <= RESERVE && head.uncompressSize > 523264
    ensures RecvIOPayload(codec, Headed(head, body)) == None
  {
    ParseHeaded(head, body);
  }

  /** Bytes behind the body are ignored, and a message that ends before it is refused. */
  lemma RecvOther(codec: Option<Codec>, head: TransferPayload, body: seq<byte>, extra: seq<byte>, k: nat)
    requires head.Fits() && |head.ToBytes()| <= RESERVE && head.compressSize == |body| && k < RESERVE + |body|
    ensures RecvIOPayload(codec, Headed(head, body) + extra) == RecvIOPayload(codec, Headed(head, body))
    ensures RecvIOPayload(codec, Headed(head, body)[..k]) == None
  {
    var s := Headed(head, body);
    ParseHeaded(head, body);
    assert (s + extra)[..RESERVE] == s[..RESERVE];
    assert (s + extra)[RESERVE..RESERVE + |body|] == body && s[RESERVE..RESERVE + |body|] == body;
    if k >= RESERVE {
      assert s[..k][..RESERVE] == s[..RESERVE];
    }
  }

  /** What the receiver makes of a piece as the sender sends it. */
  function Received(sender: Option<Codec>, receiver: Option<Codec>, compressType: nat, index: nat, data: seq<byte>)
    : Option<(nat, seq<byte>)>
  {
    RecvIOPayload(receiver, Headed(HeadOf(sender, compressType, index, data), Outgoing(sender, compressType, data).1))
  }

  /** `packed` unpacks to `data`. */
  predicate Unpacks(codec: Codec, packed: seq<byte>, data: seq<byte>)
  {
    codec.decompress(packed, |data|) == Some(data)
  }

  /** When two builds understand each other on a piece. With LZ4 asked for, a sender without it marks plain
      bytes as packed, and a receiver without it takes packed bytes for plain ones. */
  predicate Understood(sender: Option<Codec>, receiver: Option<Codec>, compressType: nat, data: seq<byte>)
  {
    || data == [] || compressType != COMPRESS_LZ4
    || match sender
       case None => receiver.None? || Unpacks(receiver.value, data, data)
       case Some(lz4) =>
         var packed := lz4.compress(data);
         packed == [] || if receiver.None? then packed == data else Unpacks(receiver.value, packed, data)
  }

  lemma ReceivedIs(sender: Option<Codec>, receiver: Option<Codec>, compressType: nat, index: nat, data: seq<byte>)
    requires Sendable(compressType, index, data) && (sender.Some? ==> Lossless(sender.value))
    ensures Received(sender, receiver, compressType, index, data) ==
      (var clear := Clear(receiver, HeadOf(sender, compressType, index, data), Outgoing(sender, compressType, data).1);
       if clear.None? || |clear.value| != |data| then None else Some((index, clear.value)))
  {
    HeadFits(sender, compressType, index, data);
    RecvHeaded(receiver, HeadOf(sender, compressType, index, data), Outgoing(sender, compressType, data).1);
  }

  /** For every sender, receiver, compression type and piece, the receiver gets back exactly the offset and
      the bytes if and only if the two builds understand each other on it. */
  lemma ReceivedIff(sender: Option<Codec>, receiver: Option<Codec>, compressType: nat, index: nat, data: seq<byte>)
    requires Sendable(compressType, index, data) && (sender.Some? ==> Lossless(sender.value))
    ensures Received(sender, receiver, compressType, index, data) == Some((index, data))
      <==> Understood(sender, receiver, compressType, data)
  {
    ReceivedIs(sender, receiver, compressType, index, data);
    ClearIff(sender, receiver, compressType, index, data);
  }

  lemma ClearIff(sender: Option<Codec>, receiver: Option<Codec>, compressType: nat, index: nat, data: seq<byte>)
    ensures Clear(receiver, HeadOf(sender, compressType, index, data), Outgoing(sender, compressType, data).1) == Some(data)
      <==> Understood(sender, receiver, compressType, data)
  {
    if data != [] && compressType == COMPRESS_LZ4 {
      if sender.Some? && sender.value.compress(data) != [] {
        assert Outgoing(sender, compressType, data) == (COMPRESS_LZ4, sender.value.compress(data));
      } else if sender.Some? {
        assert Outgoing(sender, compressType, data) == (COMPRESS_NONE, data);
      }
    }
  }

  /** For every piece, whether LZ4 packs it, declines or is off, the receiver gets back exactly the
      offset and the bytes: between two ends of the same build, or when no LZ4 was asked for. */
  lemma PieceRoundTrip(sender: Option<Codec>, receiver: Option<Codec>, compressType: nat, index: nat, data: seq<byte>)
    requires Sendable(compressType, index, data)
    requires sender == receiver || compressType != COMPRESS_LZ4
    requires sender.Some? ==> Lossless(sender.value)
    ensures |HeadOf(sender, compressType, index, data).ToBytes()| < RESERVE
    ensures Received(sender, receiver, compressType, index, data) == Some((index, data))
  {
    HeadFits(sender, compressType, index, data);
    ReceivedIff(sender, receiver, compressType, index, data);
  }

  /** A receiver without LZ4 on a piece it does not understand: it refuses it if packing made it shorter,
      and otherwise takes the packed bytes for the bytes of the file without noticing. */
  lemma PackedForPlain(lz4: Codec, index: nat, data: seq<byte>)
    requires Sendable(COMPRESS_LZ4, index, data) && Lossless(lz4) && !Understood(Some(lz4), None, COMPRESS_LZ4, data)
    ensures Received(Some(lz4), None, COMPRESS_LZ4, index, data) ==
      if |lz4.compress(data)| == |data| then Some((index, lz4.compress(data))) else None
    ensures lz4.compress(data) != data
  {
    ReceivedIs(Some(lz4), None, COMPRESS_LZ4, index, data);
  }

  /** A receiver with LZ4 on plain bytes marked as packed: whatever they unpack to is taken if it has the
      right size. So a file that is itself packed data of that size is replaced by what it unpacks to. */
  lemma PlainForPacked(lz4: Codec, index: nat, data: seq<byte>)
    requires Sendable(COMPRESS_LZ4, index, data) && Lossless(lz4) && data != []
    ensures var unpacked := lz4.decompress(data, |data|);
      Received(None, Some(lz4), COMPRESS_LZ4, index, data) ==
        if unpacked.Some? && |unpacked.value| == |data| then Some((index, unpacked.value)) else None
    ensures forall x :: data == lz4.compress(x) && |x| == |data| ==>
      Received(None, Some(lz4), COMPRESS_LZ4, index, data) == Some((index, x))
  {
    ReceivedIs(None, Some(lz4), COMPRESS_LZ4, index, data);
  }
}
