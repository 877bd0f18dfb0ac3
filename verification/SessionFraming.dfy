/** Packet framing of a session (src/common/session.cpp): Send builds one packet, FetchIOBuf takes
    the packets out of the in-place receive buffer, AllocCallback offers its free tail for reading. */
module SessionFraming {
  import opened Bytes
  import opened Streaming
  import opened Varint
  import opened WireMessages

  const HEAD_SIZE: nat := 11              // sizeof(PayloadHead), packed
  const SOCKETPAIR_SIZE: nat := 1046528   // HDC_SOCKETPAIR_SIZE, twice MAX_SIZE_IOBUF
  const VCODE: nat := 9
  const FLAG: seq<byte> := [0x48, 0x57]   // PACKET_FLAG, "HW"
  const ERR_BUF_SIZE: int := -10000
  const ERR_BUF_CHECK: int := -9997
  const ERR_IO_FAIL: int := -14000

  datatype Packet = Packet(channelId: nat, command: nat, data: seq<byte>) {
    /** What the parameter types of Send admit: uint32_t, uint16_t, and an int data size. */
    predicate Fits() {
      channelId < TWO32 && command < 0x1_0000 && |data| <= INT_MAX
    }
    /** No checksum: ENABLE_IO_CHECKSUM is off. */
    function Protect(): PayloadProtect {
      PayloadProtect(channelId, command, 0, VCODE)
    }
  }

  /** The packed PayloadHead: flag, reserve, version, big-endian sizes. */
  function Head(headSize: nat, dataSize: nat): (r: seq<byte>)
    ensures |r| == HEAD_SIZE
  {
    FLAG + [0, 0] + [1] + Be16(headSize % 0x1_0000) + Be32(dataSize % TWO32)
  }

  /** The bytes Send hands to the transport. */
  function Frame(p: Packet): seq<byte>
  {
    var s := p.Protect().ToBytes();
    Head(|s|, |p.data|) + s + p.data
  }

  /** A packet on the wire: "HW", two zeros, version 1, the sizes most significant byte first, then channel,
      command, an empty checksum and the version code under their field numbers, then the data. */
  lemma PacketBytes(p: Packet)
    requires p.Fits()
    ensures var s, q := Frame(p), p.Protect().ToBytes();
      && |s| == 11 + |q| + |p.data| && s[..5] == [0x48, 0x57, 0, 0, 1]
      && 256 * (s[5] as int) + s[6] == |q|
      && 16777216 * (s[7] as int) + 65536 * (s[8] as int) + 256 * (s[9] as int) + s[10] == |p.data|
      && s[11..] == q + p.data && q == [0x08] + Encode(p.channelId) + [0x10] + Encode(p.command) + [0x18, 0, 0x20, 9]
  {
    var s, q := Frame(p), p.Protect().ToBytes();
    PayloadProtectLength(p.Protect());
    ProtectBytes(p);
    assert s == Head(|q|, |p.data|) + (q + p.data);
    HeadBytes(|q|, |p.data|, q + p.data, s);
  }

  lemma HeadBytes(headSize: nat, dataSize: nat, rest: seq<byte>, s: seq<byte>)
    requires headSize < 0x1_0000 && dataSize < TWO32 && s == Head(headSize, dataSize) + rest
    ensures s[..5] == [0x48, 0x57, 0, 0, 1] && s[11..] == rest
    ensures 256 * (s[5] as int) + s[6] == headSize
    ensures 16777216 * (s[7] as int) + 65536 * (s[8] as int) + 256 * (s[9] as int) + s[10] == dataSize
  {
    HeadFields(headSize, dataSize, rest);
    FromBe16Bytes(s[5..7]);
    FromBe32Bytes(s[7..11]);
    SliceBytes(s);
    assert s[..5] == FLAG + [0, 0] + [1];
  }

  lemma ProtectBytes(p: Packet)
    ensures p.Protect().ToBytes() == [0x08] + Encode(p.channelId) + [0x10] + Encode(p.command) + [0x18, 0, 0x20, 9]
  {
    PayloadProtectBytes(p.Protect());
    var front := [0x08] + Encode(p.channelId) + [0x10] + Encode(p.command);
    assert Encode(0) == [0] && Encode(VCODE) == [9];
    assert front + [0x18] + [0] + [0x20] + [9] == front + [0x18, 0, 0x20, 9];
  }

  lemma SliceBytes(s: seq<byte>)
    requires |s| >= HEAD_SIZE
    ensures s[5..7][0] == s[5] && s[5..7][1] == s[6]
    ensures s[7..11][0] == s[7] && s[7..11][1] == s[8] && s[7..11][2] == s[9] && s[7..11][3] == s[10]
  {
  }

  /** DecryptPayload on the bytes behind the head. */
  function Open(body: seq<byte>, headSize: nat): Step<Packet>
    requires headSize <= |body|
  {
    var p := ParsePayloadProtect(body[..headSize]);
    if p.vCode != VCODE then Bad
    else Got(Packet(p.channelId, p.commandFlag % 0x1_0000, body[headSize..]), HEAD_SIZE + |body|)
  }

  /** OnRead at the head of the buffer, behind FetchIOBuf's loop guard. */
  function ParsePacket(s: seq<byte>): (r: Step<Packet>)
    ensures r.Got? ==> HEAD_SIZE < r.size <= |s|
  {
    if |s| <= HEAD_SIZE then NeedMore
    else if s[..2] != FLAG then Bad
    else
      var headSize, dataSize := FromBe16(s[5..7]), FromBe32(s[7..11]);
      var total := headSize + dataSize;
      if total == 0 || total > INT_MAX then Bad
      else if |s| - HEAD_SIZE < total then NeedMore
      else Open(s[HEAD_SIZE..HEAD_SIZE + total], headSize)
  }

  /** What the reader makes of any bytes, by the numbers in the head: an error exactly for a wrong flag, a
      total of zero or beyond an int, or a version code other than 9. */
  lemma ReadExactly(s: seq<byte>)
    ensures |s| <= 11 ==> ParsePacket(s) == NeedMore
    ensures |s| > 11 ==>
      var headSize := 256 * (s[5] as int) + s[6];
      var dataSize := 16777216 * (s[7] as int) + 65536 * (s[8] as int) + 256 * (s[9] as int) + s[10];
      var total := headSize + dataSize;
      ParsePacket(s) ==
        if s[0] != 0x48 || s[1] != 0x57 || total == 0 || total > 2147483647 then Bad
        else if |s| < 11 + total then NeedMore
        else
          var p := ParsePayloadProtect(s[11..11 + headSize]);
          if p.vCode != 9 then Bad
          else Got(Packet(p.channelId, p.commandFlag % 65536, s[11 + headSize..11 + total]), 11 + total)
  {
    if |s| > 11 {
      FromBe16Bytes(s[5..7]);
      FromBe32Bytes(s[7..11]);
      SliceBytes(s);
      assert s[..2] == FLAG <==> s[0] == 0x48 && s[1] == 0x57;
      var headSize, total := FromBe16(s[5..7]), FromBe16(s[5..7]) + FromBe32(s[7..11]);
      if |s| >= 11 + total {
        var body := s[11..11 + total];
        assert body[..headSize] == s[11..11 + headSize] && body[headSize..] == s[11 + headSize..11 + total];
      }
    }
  }

  /** Whatever the bytes received, a packet handed up begins with the flag, its sizes add up to what is
      consumed, its fields are in range, and its data is the end of those bytes. */
  lemma ParseSound(s: seq<byte>)
    requires ParsePacket(s).Got?
    ensures var p, n := ParsePacket(s).msg, ParsePacket(s).size;
      && s[..2] == FLAG && n == HEAD_SIZE + FromBe16(s[5..7]) + FromBe32(s[7..11]) <= |s|
      && p.command < 0x1_0000 && |p.data| == FromBe32(s[7..11]) && p.data == s[n - |p.data|..n]
  {
    var headSize, dataSize := FromBe16(s[5..7]), FromBe32(s[7..11]);
    var total := headSize + dataSize;
    assert s[HEAD_SIZE..HEAD_SIZE + total][headSize..] == s[HEAD_SIZE + headSize..HEAD_SIZE + total];
  }

  lemma HeadSlices(a: seq<byte>, b: seq<byte>, c: seq<byte>, rest: seq<byte>)
    requires |a| == 5 && |b| == 2 && |c| == 4
    ensures var s := a + b + c + rest; s[..2] == a[..2] && s[5..7] == b && s[7..11] == c && s[HEAD_SIZE..] == rest
  {
  }

  lemma HeadFields(headSize: nat, dataSize: nat, rest: seq<byte>)
    requires headSize < 0x1_0000 && dataSize < TWO32
    ensures var s := Head(headSize, dataSize) + rest;
      s[..2] == FLAG && FromBe16(s[5..7]) == headSize && FromBe32(s[7..11]) == dataSize && s[HEAD_SIZE..] == rest
  {
    var front := FLAG + [0, 0] + [1];
    HeadSlices(front, Be16(headSize), Be32(dataSize), rest);
    assert front[..2] == FLAG;
    Be16RoundTrip(headSize);
    Be32RoundTrip(dataSize);
  }

  lemma ParseStable(s: seq<byte>, t: seq<byte>)
    ensures StableAt(ParsePacket, s, t)
  {
    if |s| > HEAD_SIZE {
      assert (s + t)[..2] == s[..2] && (s + t)[5..7] == s[5..7] && (s + t)[7..11] == s[7..11];
      var headSize, dataSize := FromBe16(s[5..7]), FromBe32(s[7..11]);
      var end := HEAD_SIZE + headSize + dataSize;
      if |s| >= end {
        assert (s + t)[HEAD_SIZE..end] == s[HEAD_SIZE..end];
      }
    }
  }

  lemma PacketsStable()
    ensures Stable(ParsePacket)
  {
    forall s: seq<byte>, t: seq<byte>
      ensures StableAt(ParsePacket, s, t)
    {
      ParseStable(s, t);
    }
  }

  lemma ProtectParsed(q: PayloadProtect)
    requires q.Fits()
    ensures ParsePayloadProtect(q.ToBytes()) == q
  {
    var s := q.ToBytes();
    PayloadProtectRoundTrip(q, 0);
    assert s + Zeros(0) == s;
  }

  lemma OpenParsed(s: seq<byte>, data: seq<byte>, q: PayloadProtect)
    requires ParsePayloadProtect(s) == q && q.vCode == VCODE && q.commandFlag < 0x1_0000
    ensures Open(s + data, |s|) == Got(Packet(q.channelId, q.commandFlag, data), HEAD_SIZE + |s| + |data|)
  {
    Halves(s, data);
  }

  lemma OpenSent(p: Packet)
    requires p.Fits()
    ensures var s := p.Protect().ToBytes(); Open(s + p.data, |s|) == Got(p, HEAD_SIZE + |s| + |p.data|)
  {
    ProtectParsed(p.Protect());
    OpenParsed(p.Protect().ToBytes(), p.data, p.Protect());
  }

  lemma ParseWhole(headSize: nat, dataSize: nat, body: seq<byte>)
    requires 0 < headSize < 0x1_0000 && headSize + dataSize <= INT_MAX && |body| == headSize + dataSize
    ensures ParsePacket(Head(headSize, dataSize) + body) == Open(body, headSize)
  {
    HeadFields(headSize, dataSize, body);
    assert (Head(headSize, dataSize) + body)[HEAD_SIZE..HEAD_SIZE + headSize + dataSize] == body;
  }

  lemma ParseCut(headSize: nat, dataSize: nat, body: seq<byte>, k: nat)
    requires 0 < headSize < 0x1_0000 && headSize + dataSize <= INT_MAX && |body| == headSize + dataSize
    requires k < HEAD_SIZE + |body|
    ensures ParsePacket((Head(headSize, dataSize) + body)[..k]).NeedMore?
  {
    if k > HEAD_SIZE {
      var cut := body[..k - HEAD_SIZE];
      assert (Head(headSize, dataSize) + body)[..k] == Head(headSize, dataSize) + cut;
      HeadFields(headSize, dataSize, cut);
    }
  }

  /** The reader recognises a sent packet exactly when its last byte has arrived. */
  lemma SentPacketFrameable(p: Packet)
    requires p.Fits() && |Frame(p)| <= INT_MAX
    ensures Frameable(Frame, ParsePacket, p)
  {
    var s := p.Protect().ToBytes();
    var body := s + p.data;
    assert Frame(p) == Head(|s|, |p.data|) + body;
    PayloadProtectLength(p.Protect());
    ParseWhole(|s|, |p.data|, body);
    OpenSent(p);
    forall k | 0 <= k < |Frame(p)|
      ensures ParsePacket(Frame(p)[..k]).NeedMore?
    {
      ParseCut(|s|, |p.data|, body, k);
    }
  }

  /** Packets the sender may build that fit the receive buffer, for an upper layer that takes them all. */
  ghost predicate Sendable(fetch: Packet -> Verdict, ps: seq<Packet>)
  {
    forall i :: 0 <= i < |ps| ==> ps[i].Fits() && |Frame(ps[i])| <= SOCKETPAIR_SIZE && fetch(ps[i]).Continue?
  }

  lemma PacketsCarried(fetch: Packet -> Verdict, ps: seq<Packet>)
    requires Sendable(fetch, ps)
    ensures Carried(Frame, ParsePacket, fetch, SOCKETPAIR_SIZE, ps)
  {
    PacketsStable();
    forall i | 0 <= i < |ps| ensures Frameable(Frame, ParsePacket, ps[i]) {
      SentPacketFrameable(ps[i]);
    }
  }

  /** For every list of packets no larger than the buffer and every split of their bytes into
      pieces: they are handed up exactly and in order, the buffer always holds the unfinished suffix,
      and it always has room for at least one more byte. */
  lemma PacketStream(fetch: Packet -> Verdict, ps: seq<Packet>, pieces: seq<seq<byte>>)
    requires Sendable(fetch, ps)
    requires Concat(pieces) <= Frames(Frame, ps)
    ensures InSync(Frame, SOCKETPAIR_SIZE, ps, Concat(pieces),
                   FeedAll(ParsePacket, fetch, Reader([], [], Waiting), pieces))
  {
    PacketsCarried(fetch, ps);
    FramedStream(Frame, ParsePacket, fetch, SOCKETPAIR_SIZE, ps, pieces);
  }

  class Session {
    var ioBuf: array<byte>        // bufSize is its length; empty until the first AllocCallback
    var availTailIndex: nat
    var isDead: bool
    var received: seq<Packet>     // the arguments of the FetchCommand calls made so far
    const fetch: Packet -> Verdict
    const parse: seq<byte> -> Step<Packet>    // what OnRead decides at the head of the buffer: ParsePacket

    ghost predicate Valid()
      reads this
    {
      availTailIndex <= ioBuf.Length && ioBuf.Length in {0, SOCKETPAIR_SIZE} && ReadsHeads(parse, HEAD_SIZE)
    }

    ghost function Contents(): seq<byte>
      reads this, ioBuf
      requires Valid()
    {
      ioBuf[..availTailIndex]
    }

    constructor (fetchCommand: Packet -> Verdict)
      ensures Valid() && fresh(ioBuf) && Contents() == [] && received == [] && !isDead
      ensures fetch == fetchCommand && parse == ParsePacket
    {
      ioBuf := new byte[0];
      availTailIndex, isDead, received, fetch, parse := 0, false, [], fetchCommand, ParsePacket;
    }

    /** `wanted` is the size libuv suggests; one that is no positive int gives a length that is none either. */
    method AllocCallback(wanted: nat) returns (at: nat, len: int)
      requires Valid()
      modifies this`ioBuf
      ensures Valid() && ioBuf.Length == SOCKETPAIR_SIZE && (ioBuf == old(ioBuf) || fresh(ioBuf))
      ensures Contents() == old(Contents())
      ensures at == availTailIndex && at + len <= SOCKETPAIR_SIZE
      ensures len > 0 <==> availTailIndex < SOCKETPAIR_SIZE && AsInt(wanted) > 0
      ensures len == AsInt(wanted) || (len == SOCKETPAIR_SIZE - availTailIndex && len < AsInt(wanted))
    {
      if ioBuf.Length == 0 {
        ioBuf := new byte[SOCKETPAIR_SIZE];
      }
      at := availTailIndex;
      var size := ioBuf.Length - availTailIndex;
      len := if size < AsInt(wanted) then size else AsInt(wanted);
    }

    /** FetchCommand as the caller sees it: the packet is handed up, and the session may die of it. */
    method FetchCommand(p: Packet) returns (ok: bool)
      modifies this`received, this`isDead
      ensures received == old(received) + [p]
      ensures ok == !fetch(p).Refuse?
      ensures isDead == (old(isDead) || fetch(p).Stop?)
    {
      received := received + [p];
      if fetch(p).Stop? {
        isDead := true;
      }
      ok := !fetch(p).Refuse?;
    }

    /** FetchIOBuf's loop at index `at` of the buffer `buf` will end with `r`. */
    ghost predicate Ahead(buf: seq<byte>, at: nat, r: Reader<Packet>)
      reads this, ioBuf
    {
      ioBuf[..] == buf && Leads(parse, fetch, received, buf, at, availTailIndex, r)
    }

    /** It has ended there. */
    ghost predicate Over(buf: seq<byte>, at: nat, outcome: Outcome, r: Reader<Packet>)
      reads this, ioBuf
    {
      ioBuf[..] == buf && Ends(received, buf, at, availTailIndex, outcome, r)
    }

    /** The packet at `at`, if it is all there and sound, is handed up. */
    method OnRead(at: nat, ghost buf: seq<byte>) returns (ret: int)
      requires Valid() && !isDead && ioBuf[..] == buf && at + availTailIndex <= |buf|
      modifies this`received, this`isDead
      ensures ioBuf[..] == buf && (ret < 0 ==> ret == ERR_BUF_CHECK)
      ensures Handed(parse, fetch, buf[at..at + availTailIndex], old(received), received, isDead, ret)
    {
      var step := parse(ioBuf[..][at..at + availTailIndex]);
      match step
      case NeedMore => ret := 0;
      case Bad => ret := ERR_BUF_CHECK;
      case Got(p, n) =>
        var ok := FetchCommand(p);
        ret := if ok then n else ERR_BUF_CHECK;
    }

    /** memmove of the unconsumed bytes to the front, and zeros behind them. */
    method Compact(from: nat)
      requires Valid() && from + availTailIndex <= ioBuf.Length
      modifies ioBuf
      ensures ioBuf[..availTailIndex] == old(ioBuf[from..from + availTailIndex])
      ensures forall i :: availTailIndex <= i < ioBuf.Length ==> ioBuf[i] == 0
    {
      forall i | 0 <= i < ioBuf.Length {
        ioBuf[i] := if i < availTailIndex then ioBuf[from + i] else 0;
      }
    }

    /** One turn of the loop at buffer index `at`; a negative `next` is the error index. */
    method TakeOne(at: nat, ghost buf: seq<byte>, ghost r: Reader<Packet>) returns (more: bool, next: int)
      requires Valid() && !isDead && availTailIndex > HEAD_SIZE && Ahead(buf, at, r)
      modifies this`availTailIndex, this`isDead, this`received
      ensures Valid() && ioBuf[..] == buf
      ensures next < 0 ==>
        next == ERR_BUF_SIZE && availTailIndex == 0 && !more && !isDead && received == r.msgs && r.outcome.Broken?
      ensures next >= 0 ==>
        && next + availTailIndex == at + old(availTailIndex) && (more ==> next > at)
        && (isDead ==> Over(buf, next, Dead, r)) && (!isDead && more ==> Ahead(buf, next, r))
        && (!isDead && !more ==> Over(buf, next, Waiting, r))
    {
      var childRet := OnRead(at, buf);
      ghost var n := availTailIndex;
      TurnBound(parse, fetch, old(received), buf, at, n, received, isDead, childRet, r);
      more, next := childRet > 0, at;
      if childRet > 0 {
        availTailIndex := availTailIndex - childRet;
        next := at + childRet;
        TurnConsumed(parse, fetch, old(received), buf, at, n, received, isDead, childRet, r, next, availTailIndex);
      } else {
        TurnEnds(parse, fetch, old(received), buf, at, n, received, isDead, childRet, r);
        if childRet < 0 {
          availTailIndex := 0;
          next := ERR_BUF_SIZE;
        }
      }
    }

    method Loop(ghost buf: seq<byte>, ghost r: Reader<Packet>) returns (ret: int)
      requires Valid() && Ahead(buf, 0, r)
      modifies this`availTailIndex, this`isDead, this`received
      ensures Valid()
      ensures old(isDead) ==>
        ret == 0 && availTailIndex == old(availTailIndex) && received == old(received) && isDead && ioBuf[..] == buf
      ensures !old(isDead) ==>
        && received == r.msgs && isDead == r.outcome.Dead?
        && (r.outcome.Broken? ==> ret == ERR_BUF_SIZE && availTailIndex == 0)
        && (!r.outcome.Broken? ==>
              0 <= ret && ret + availTailIndex == old(availTailIndex) && Over(buf, ret, r.outcome, r))
    {
      ret := 0;
      var more := true;
      while more && !isDead && availTailIndex > HEAD_SIZE
        invariant Valid() && ioBuf[..] == buf
        invariant old(isDead) ==> isDead && ret == 0 && received == old(received) && availTailIndex == old(availTailIndex)
        invariant ret < 0 ==>
          ret == ERR_BUF_SIZE && availTailIndex == 0 && !more && !isDead && received == r.msgs && r.outcome.Broken?
        invariant ret >= 0 ==> ret + availTailIndex == old(availTailIndex)
        invariant ret >= 0 && !old(isDead) ==>
          && (isDead ==> Over(buf, ret, Dead, r)) && (!isDead && more ==> Ahead(buf, ret, r))
          && (!isDead && !more ==> Over(buf, ret, Waiting, r))
        decreases more, availTailIndex
      {
        more, ret := TakeOne(ret, buf, r);
      }
      if more && !isDead {
        assert parse(buf[ret..ret + availTailIndex]).NeedMore?;
      }
    }

    /** The reassembly loop: what it does to the session is Drain of the bytes in the buffer. */
    method FetchIOBuf(read: int) returns (ret: int)
      requires Valid() && availTailIndex + read <= ioBuf.Length
      modifies this`availTailIndex, this`isDead, this`received, ioBuf
      ensures Valid()
      ensures read < 0 ==>
        ret == ERR_IO_FAIL && received == old(received) && isDead == old(isDead) && Contents() == old(Contents())
      ensures read >= 0 && old(isDead) ==>
        ret == 0 && received == old(received) && isDead && Contents() == old(ioBuf[..availTailIndex + read])
      ensures read >= 0 && !old(isDead) ==>
        var r := Prepend(old(received), Drain(parse, fetch, old(ioBuf[..availTailIndex + read])));
        && received == r.msgs
        && isDead == r.outcome.Dead?
        && (r.outcome.Broken? ==> ret == ERR_BUF_SIZE && Contents() == [])
        && (!r.outcome.Broken? ==> ret == old(availTailIndex) + read - availTailIndex >= 0 && Contents() == r.buffer)
    {
      if read < 0 {
        return ERR_IO_FAIL;
      }
      availTailIndex := availTailIndex + read;
      ghost var buf := ioBuf[..];
      ghost var r := Prepend(received, Drain(parse, fetch, ioBuf[..availTailIndex]));
      LeadsToDrain(parse, fetch, received, buf, 0, availTailIndex, ioBuf[..availTailIndex], r);
      ret := Loop(buf, r);
      assert ret >= 0 ==> ioBuf[ret..ret + availTailIndex] == buf[ret..ret + availTailIndex];
      if ret > 0 && availTailIndex > 0 {
        Compact(ret);
      }
    }

    /** The kernel's part of a read: `bytes` land where AllocCallback pointed. */
    method Fill(bytes: seq<byte>)
      requires Valid() && availTailIndex + |bytes| <= ioBuf.Length
      modifies ioBuf
      ensures ioBuf[..availTailIndex + |bytes|] == old(Contents()) + bytes
    {
      forall i | 0 <= i < |bytes| {
        ioBuf[availTailIndex + i] := bytes[i];
      }
    }

    /** One read of the event loop: at most what AllocCallback offers is taken from the stream. */
    method ReadOnce(stream: seq<byte>, wanted: nat) returns (n: nat, ret: int)
      requires Valid() && !isDead && stream != [] && AsInt(wanted) > 0
      requires availTailIndex < SOCKETPAIR_SIZE
      modifies this, ioBuf
      ensures Valid() && (ioBuf == old(ioBuf) || fresh(ioBuf))
      ensures 0 < n <= |stream|
      ensures
        var r := Feed(parse, fetch, Reader(old(received), old(Contents()), Waiting), stream[..n]);
        && received == r.msgs
        && isDead == r.outcome.Dead?
        && (ret < 0 <==> r.outcome.Broken?)
        && (ret >= 0 ==> Contents() == r.buffer)
    {
      var _, len := AllocCallback(wanted);
      var most := Min(len, |stream|);
      assert 0 < most;
      n :| 0 < n <= most;
      ghost var all := Contents() + stream[..n];
      Fill(stream[..n]);
      assert ioBuf[..availTailIndex + n] == all;
      ret := FetchIOBuf(n);
      assert received == Prepend(old(received), Drain(parse, fetch, all)).msgs;
    }

    /** The event loop over a whole stream; it ends because no read is ever offered an empty buffer. */
    method ReadAll(stream: seq<byte>, wanted: nat, ghost ps: seq<Packet>)
      requires Valid() && !isDead && Contents() == [] && received == [] && AsInt(wanted) > 0
      requires Carried(Frame, parse, fetch, SOCKETPAIR_SIZE, ps) && stream == Frames(Frame, ps)
      modifies this, ioBuf
      ensures Valid() && !isDead && received == ps && Contents() == []
    {
      var rest := stream;
      ghost var pieces: seq<seq<byte>> := [];
      ReceivingStart(Frame, parse, fetch, SOCKETPAIR_SIZE, ps);
      while rest != []
        invariant Valid() && (ioBuf == old(ioBuf) || fresh(ioBuf)) && !isDead
        invariant Receiving(Frame, parse, fetch, SOCKETPAIR_SIZE, ps, pieces, rest,
                            Reader(received, Contents(), Waiting))
        decreases |rest|
      {
        ghost var r := Reader(received, Contents(), Waiting);
        var n, _ := ReadOnce(rest, wanted);
        ReceivingStep(Frame, parse, fetch, SOCKETPAIR_SIZE, ps, pieces, rest, r, n);
        pieces, rest := pieces + [rest[..n]], rest[n..];
      }
      ReceivingEnd(Frame, parse, fetch, SOCKETPAIR_SIZE, ps, pieces, Reader(received, Contents(), Waiting));
    }

    /** The whole path, end to end: whatever number of bytes each read returns, the packets sent are
        the packets fetched. */
    method Receive(stream: seq<byte>, wanted: nat, ghost ps: seq<Packet>)
      requires Valid() && !isDead && Contents() == [] && received == [] && AsInt(wanted) > 0
      requires parse == ParsePacket && Sendable(fetch, ps) && stream == Frames(Frame, ps)
      modifies this, ioBuf
      ensures Valid() && !isDead && received == ps && Contents() == []
    {
      PacketsCarried(fetch, ps);
      ReadAll(stream, wanted, ps);
    }
  }
}
