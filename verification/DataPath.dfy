/** The layers put together: pieces of a file become payloads, payloads become packets, packets a byte
    stream that arrives in arbitrary cuts, and the slave gets back the pieces. This is what lets
    FileTransfer treat the link as a queue of Data messages. */
module DataPath {
  import opened Bytes
  import opened CircleBuffer
  import FileTransfer
  import TransferRuns
  import opened IOPayload
  import opened SessionFraming
  import opened Streaming
  import opened WireMessages

  const CMD_FILE_DATA: nat := 3003

  datatype Piece = Piece(index: nat, data: seq<byte>)

  predicate Carriable(compressType: nat, pieces: seq<Piece>)
  {
    forall i :: 0 <= i < |pieces| ==> IOPayload.Sendable(compressType, pieces[i].index, pieces[i].data)
  }

  /** The packet SendIOPayload and Send make of a piece. */
  function DataPacket(codec: Option<Codec>, compressType: nat, channelId: nat, p: Piece): Packet
  {
    Packet(channelId, CMD_FILE_DATA,
           Headed(HeadOf(codec, compressType, p.index, p.data), Outgoing(codec, compressType, p.data).1))
  }

  function DataPackets(codec: Option<Codec>, compressType: nat, channelId: nat, pieces: seq<Piece>): seq<Packet>
  {
    seq(|pieces|, i requires 0 <= i < |pieces| => DataPacket(codec, compressType, channelId, pieces[i]))
  }

  ghost predicate Fair(codec: Option<Codec>) { codec.Some? ==> Lossless(codec.value) }

  /** A piece fits a packet, and its packet the receive buffer. */
  lemma PacketFits(codec: Option<Codec>, compressType: nat, channelId: nat, p: Piece)
    requires Fair(codec) && IOPayload.Sendable(compressType, p.index, p.data) && channelId < TWO32
    ensures var packet := DataPacket(codec, compressType, channelId, p);
      packet.Fits() && |Frame(packet)| <= SOCKETPAIR_SIZE
  {
    HeadFits(codec, compressType, p.index, p.data);
    PayloadProtectLength(DataPacket(codec, compressType, channelId, p).Protect());
  }

  lemma PacketsSendable(codec: Option<Codec>, compressType: nat, channelId: nat, fetch: Packet -> Verdict, pieces: seq<Piece>)
    requires Fair(codec) && Carriable(compressType, pieces) && channelId < TWO32
    requires forall p :: fetch(p).Continue?
    ensures SessionFraming.Sendable(fetch, DataPackets(codec, compressType, channelId, pieces))
  {
    var ps := DataPackets(codec, compressType, channelId, pieces);
    forall i | 0 <= i < |ps| ensures ps[i].Fits() && |Frame(ps[i])| <= SOCKETPAIR_SIZE {
      PacketFits(codec, compressType, channelId, pieces[i]);
    }
  }

  /** A packet gives back its piece. */
  ghost predicate Carries(codec: Option<Codec>, channelId: nat, packet: Packet, p: Piece)
  {
    && packet.channelId == channelId && packet.command == CMD_FILE_DATA
    && RecvIOPayload(codec, packet.data) == Some((p.index, p.data))
  }

  lemma PacketCarries(codec: Option<Codec>, compressType: nat, channelId: nat, p: Piece)
    requires Fair(codec) && IOPayload.Sendable(compressType, p.index, p.data)
    ensures Carries(codec, channelId, DataPacket(codec, compressType, channelId, p), p)
  {
    PieceRoundTrip(codec, codec, compressType, p.index, p.data);
  }

  /** For every list of pieces, with LZ4 or without, and every way the bytes are cut into reads: the
      packets handed up are those sent, and RecvIOPayload gets out of each the offset and the bytes that
      went in. */
  lemma PiecesArrive(codec: Option<Codec>, compressType: nat, channelId: nat, fetch: Packet -> Verdict,
                     pieces: seq<Piece>, cuts: seq<seq<byte>>)
    requires Fair(codec) && Carriable(compressType, pieces) && channelId < TWO32
    requires forall p :: fetch(p).Continue?
    requires Concat(cuts) == Frames(Frame, DataPackets(codec, compressType, channelId, pieces))
    ensures var r := FeedAll(ParsePacket, fetch, Reader([], [], Waiting), cuts);
      && r.buffer == [] && r.outcome.Waiting? && |r.msgs| == |pieces|
      && forall i :: 0 <= i < |pieces| ==> Carries(codec, channelId, r.msgs[i], pieces[i])
  {
    var ps := DataPackets(codec, compressType, channelId, pieces);
    PacketsSendable(codec, compressType, channelId, fetch, pieces);
    PacketStream(fetch, ps, cuts);
    InSyncAtEnd(Frame, SOCKETPAIR_SIZE, ps, FeedAll(ParsePacket, fetch, Reader([], [], Waiting), cuts));
    forall i | 0 <= i < |ps| ensures Carries(codec, channelId, ps[i], pieces[i]) {
      PacketCarries(codec, compressType, channelId, pieces[i]);
    }
  }

  /** The bytes a read delivers, put behind the reserved prefix. */
  method Deliver(memory: array<byte>, data: seq<byte>)
    requires RESERVE + |data| <= memory.Length
    modifies memory
    ensures memory[RESERVE..RESERVE + |data|] == data
    ensures forall i :: 0 <= i < RESERVE ==> memory[i] == old(memory[i])
  {
    forall i | 0 <= i < |data| {
      memory[RESERVE + i] := data[i];
    }
  }

  /** A piece read into memory that starts with zeros, and sent from there. */
  method SendFrom(memory: array<byte>, codec: Option<Codec>, compressType: nat, p: Piece) returns (sent: seq<byte>)
    requires RESERVE + |p.data| <= memory.Length && forall i :: 0 <= i < RESERVE ==> memory[i] == 0
    requires IOPayload.Sendable(compressType, p.index, p.data) && Fair(codec)
    modifies memory
    ensures RecvIOPayload(codec, sent) == Some((p.index, p.data))
  {
    Deliver(memory, p.data);
    sent := SendIOPayload(codec, compressType, p.index, memory, |p.data|);
    PieceRoundTrip(codec, codec, compressType, p.index, p.data);
  }

  /** A buffer from the pool, recycled or new, with its memory: zeros throughout. */
  method Obtain(pool: Buffers, address: nat, now: int) returns (buf: nat, memory: array<byte>)
    requires pool.Valid() && forall i :: 0 <= i < |pool.buffers| ==> pool.buffers[i].address != address
    modifies pool
    ensures pool.Valid()
    ensures buf == 0 ==>
      pool.buffers == old(pool.buffers) && address == 0 && forall d :: d in old(pool.buffers) ==> d.used
    ensures buf != 0 ==>
      && buf !in old(CircleBuffer.InUse(pool.buffers))
      && CircleBuffer.InUse(pool.buffers) == old(CircleBuffer.InUse(pool.buffers)) + {buf}
      && fresh(memory) && memory[..] == Zeros(pool.size)
  {
    buf := pool.Malloc(address, now);
    if buf == 0 {
      memory := new byte[0];
      return;
    }
    assert Data(buf, Zeros(pool.size), true, now) in pool.buffers;
    memory := pool.Load(buf);
  }

  /** A piece sent from a circle buffer, which is given back dirty: because Malloc zeroes it, also a recycled
      buffer gives a payload from which the receiver gets the offset and the bytes. */
  method SendPooled(pool: Buffers, address: nat, now: int, codec: Option<Codec>, compressType: nat, p: Piece)
    returns (sent: Option<seq<byte>>)
    requires pool.Valid() && forall i :: 0 <= i < |pool.buffers| ==> pool.buffers[i].address != address
    requires RESERVE + |p.data| <= pool.size && IOPayload.Sendable(compressType, p.index, p.data) && Fair(codec)
    modifies pool
    ensures pool.Valid() && CircleBuffer.InUse(pool.buffers) == old(CircleBuffer.InUse(pool.buffers))
    ensures sent.None? ==> address == 0 && forall d :: d in old(pool.buffers) ==> d.used
    ensures sent.Some? ==> RecvIOPayload(codec, sent.value) == Some((p.index, p.data))
  {
    var buf, memory := Obtain(pool, address, now);
    if buf == 0 {
      return None;
    }
    assert |memory[..]| == pool.size && forall i :: 0 <= i < RESERVE ==> memory[i] == memory[..][i];
    var bytes := SendFrom(memory, codec, compressType, p);
    pool.Store(buf, memory[..]);
    pool.Free(buf, now);
    sent := Some(bytes);
  }

  /** Whatever the transfer protocol has on its way to the slave can be carried like this. */
  lemma ProtocolDataCarriable(files: FileTransfer.Files, names: seq<string>, isDir: bool, es: seq<FileTransfer.Event>,
                              y: FileTransfer.System, k: nat, compressType: nat)
    requires TransferRuns.Reached(files, names, isDir, es, y) && k < |y.m.out| && y.m.out[k].Data?
    requires |FileTransfer.Source(files, y)| < TWO64 && compressType < 256
    ensures IOPayload.Sendable(compressType, y.m.out[k].index, y.m.out[k].bytes)
  {
    TransferRuns.DataIsAPiece(files, names, isDir, es, y, k);
  }
}
