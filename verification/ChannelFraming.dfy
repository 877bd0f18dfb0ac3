/** Framing between client and server (src/common/channel.cpp): a 4-byte big-endian length before
    each payload. The second reader built on the streaming theorem. */
module ChannelFraming {
  import opened Bytes
  import opened Streaming

  const LENGTH_SIZE: nat := 4             // DWORD_SERIALIZE_SIZE
  const CHANNEL_BUF_SIZE: nat := 2093056  // GetMaxBufSize() * BUF_EXTEND_SIZE
  const UV_ENOBUFS: int := -105

  /** The bytes SendChannel writes: nothing for a payload whose framed size would overflow an int. */
  function SendChannel(payload: seq<byte>): seq<byte>
  {
    if |payload| > INT_MAX - LENGTH_SIZE then [] else Be32(|payload|) + payload
  }

  /** The head of the buffer as ReadStream's loop reads it. */
  function ParsePayload(s: seq<byte>): (r: Step<seq<byte>>)
    ensures r.Got? ==> LENGTH_SIZE < r.size <= |s|
  {
    if |s| <= LENGTH_SIZE then NeedMore
    else
      var size := FromBe32(s[..4]);
      if size == 0 || size > INT_MAX then Bad
      else if |s| - LENGTH_SIZE < size then NeedMore
      else Got(s[LENGTH_SIZE..LENGTH_SIZE + size], LENGTH_SIZE + size)
  }

  /** On the wire the length goes first, most significant byte first, and the payload follows. */
  lemma LengthFirst(payload: seq<byte>)
    requires |payload| <= INT_MAX - LENGTH_SIZE
    ensures var s := SendChannel(payload);
      && |s| == 4 + |payload| && s[4..] == payload
      && 16777216 * (s[0] as int) + 65536 * (s[1] as int) + 256 * (s[2] as int) + s[3] == |payload|
  {
    var s := SendChannel(payload);
    assert s[..4] == Be32(|payload|);
    Be32Bytes(|payload|);
  }

  /** What the reader makes of any bytes, by the number in the first four. */
  lemma ReadExactly(s: seq<byte>)
    ensures |s| <= 4 ==> ParsePayload(s) == NeedMore
    ensures |s| > 4 ==>
      var size := 16777216 * (s[0] as int) + 65536 * (s[1] as int) + 256 * (s[2] as int) + s[3];
      ParsePayload(s) ==
        if size == 0 || size > 2147483647 then Bad
        else if |s| < 4 + size then NeedMore
        else Got(s[4..4 + size], 4 + size)
  {
    if |s| > 4 {
      FromBe32Bytes(s[..4]);
    }
  }

  lemma PayloadsStable()
    ensures Stable(ParsePayload)
  {
    forall s: seq<byte>, t: seq<byte>
      ensures StableAt(ParsePayload, s, t)
    {
      if |s| > LENGTH_SIZE {
        assert (s + t)[..4] == s[..4];
        var end := LENGTH_SIZE + FromBe32(s[..4]);
        if end <= |s| {
          assert (s + t)[LENGTH_SIZE..end] == s[LENGTH_SIZE..end];
        }
      }
    }
  }

  lemma ParseSent(payload: seq<byte>, k: nat)
    requires 0 < |payload| <= INT_MAX - LENGTH_SIZE && k <= LENGTH_SIZE + |payload|
    ensures ParsePayload(SendChannel(payload)[..k]) ==
      if k < LENGTH_SIZE + |payload| then NeedMore else Got(payload, k)
  {
    var s := SendChannel(payload)[..k];
    if k > LENGTH_SIZE {
      assert s[..4] == Be32(|payload|);
      Be32RoundTrip(|payload|);
      if k == LENGTH_SIZE + |payload| {
        assert s == Be32(|payload|) + payload;
        assert s[LENGTH_SIZE..k] == payload;
      }
    }
  }

  /** Exactly the payloads that survive the trip: a zero length is the reader's error mark, so an
      empty payload is never recognised, although SendChannel sends it. */
  lemma FrameableIff(payload: seq<byte>)
    ensures Frameable(SendChannel, ParsePayload, payload) <==> 0 < |payload| <= INT_MAX - LENGTH_SIZE
  {
    if 0 < |payload| <= INT_MAX - LENGTH_SIZE {
      var f := SendChannel(payload);
      forall k | 0 <= k < |f| ensures ParsePayload(f[..k]).NeedMore? {
        ParseSent(payload, k);
      }
      ParseSent(payload, |f|);
      assert f[..|f|] == f;
    }
  }

  /** A failing ReadChannel ends the channel unless it is kept alive. */
  function Taking(keepAlive: bool, readChannel: seq<byte> -> int): seq<byte> -> Verdict
  {
    payload => if readChannel(payload) < 0 && !keepAlive then Refuse else Continue
  }

  /** A payload is refused exactly when ReadChannel fails and the channel is not kept alive; none stops the reader. */
  lemma TakingMeans(keepAlive: bool, readChannel: seq<byte> -> int, payload: seq<byte>)
    ensures Taking(keepAlive, readChannel)(payload) == if keepAlive || readChannel(payload) >= 0 then Continue else Refuse
  {
  }

  /** Payloads that fit the receive buffer and that the reader's upper layer takes. */
  ghost predicate Sendable(take: seq<byte> -> Verdict, ps: seq<seq<byte>>)
  {
    forall i :: 0 <= i < |ps| ==> 0 < |ps[i]| <= CHANNEL_BUF_SIZE - LENGTH_SIZE && take(ps[i]).Continue?
  }

  lemma PayloadsCarried(take: seq<byte> -> Verdict, ps: seq<seq<byte>>)
    requires Sendable(take, ps)
    ensures Carried(SendChannel, ParsePayload, take, CHANNEL_BUF_SIZE, ps)
  {
    PayloadsStable();
    forall i | 0 <= i < |ps| ensures Frameable(SendChannel, ParsePayload, ps[i]) {
      FrameableIff(ps[i]);
    }
  }

  /** Every list of nonempty payloads that fit, under every chunking, reaches ReadChannel exactly and
      in order; only the unfinished suffix is kept, and there is always room for another byte. */
  lemma PayloadStream(take: seq<byte> -> Verdict, ps: seq<seq<byte>>, pieces: seq<seq<byte>>)
    requires Sendable(take, ps)
    requires Concat(pieces) <= Frames(SendChannel, ps)
    ensures InSync(SendChannel, CHANNEL_BUF_SIZE, ps, Concat(pieces),
                   FeedAll(ParsePayload, take, Reader([], [], Waiting), pieces))
  {
    PayloadsCarried(take, ps);
    FramedStream(SendChannel, ParsePayload, take, CHANNEL_BUF_SIZE, ps, pieces);
  }

  class Channel {
    var ioBuf: array<byte>          // bufSize is its length; empty until the first AllocCallback
    var availTailIndex: nat
    var received: seq<seq<byte>>    // the payloads handed to ReadChannel so far
    var freed: bool                 // FreeChannel has been called
    const take: seq<byte> -> Verdict
    const parse: seq<byte> -> Step<seq<byte>>    // what the loop decides at the head of the buffer: ParsePayload

    ghost predicate Valid()
      reads this
    {
      && availTailIndex <= ioBuf.Length && ioBuf.Length in {0, CHANNEL_BUF_SIZE}
      && ReadsHeads(parse, LENGTH_SIZE) && forall p :: !take(p).Stop?
    }

    ghost function Contents(): seq<byte>
      reads this, ioBuf
      requires Valid()
    {
      ioBuf[..availTailIndex]
    }

    constructor (keepAlive: bool, readChannel: seq<byte> -> int)
      ensures Valid() && fresh(ioBuf) && Contents() == [] && received == [] && !freed
      ensures take == Taking(keepAlive, readChannel) && parse == ParsePayload
    {
      ioBuf := new byte[0];
      availTailIndex, received, freed := 0, [], false;
      take, parse := Taking(keepAlive, readChannel), ParsePayload;
    }

    /** A full buffer is offered as an empty one, which libuv reports as UV_ENOBUFS. */
    method AllocCallback(wanted: nat) returns (at: nat, len: nat)
      requires Valid()
      modifies this`ioBuf
      ensures Valid() && ioBuf.Length == CHANNEL_BUF_SIZE && (ioBuf == old(ioBuf) || fresh(ioBuf))
      ensures Contents() == old(Contents())
      ensures len == Min(CHANNEL_BUF_SIZE - availTailIndex, wanted)
      ensures availTailIndex < CHANNEL_BUF_SIZE ==> at == availTailIndex
    {
      if ioBuf.Length == 0 {
        ioBuf := new byte[CHANNEL_BUF_SIZE];
      }
      var availSize := ioBuf.Length - availTailIndex;
      if availSize == 0 {
        return 0, 0;
      }
      at := availTailIndex;
      len := Min(availSize, Min(wanted, INT_MAX));
    }

    /** The loop at index `at` of the buffer `buf` will end with `r`. */
    ghost predicate Ahead(buf: seq<byte>, at: nat, r: Reader<seq<byte>>)
      reads this, ioBuf
    {
      ioBuf[..] == buf && Leads(parse, take, received, buf, at, availTailIndex, r)
    }

    /** It has ended there. */
    ghost predicate Over(buf: seq<byte>, at: nat, outcome: Outcome, r: Reader<seq<byte>>)
      reads this, ioBuf
    {
      ioBuf[..] == buf && Ends(received, buf, at, availTailIndex, outcome, r)
    }

    /** ReadChannel as the caller sees it: the payload is handed up, and may be refused. */
    method ReadChannel(payload: seq<byte>) returns (ok: bool)
      modifies this`received
      ensures received == old(received) + [payload] && ok == !take(payload).Refuse?
    {
      received := received + [payload];
      ok := !take(payload).Refuse?;
    }

    /** The payload at `at`, if it is all there, is handed up. */
    method TakePayload(at: nat, ghost buf: seq<byte>) returns (ret: int)
      requires Valid() && ioBuf[..] == buf && at + availTailIndex <= |buf|
      modifies this`received
      ensures ioBuf[..] == buf
      ensures Handed(parse, take, buf[at..at + availTailIndex], old(received), received, false, ret)
    {
      var step := parse(ioBuf[..][at..at + availTailIndex]);
      match step
      case NeedMore => ret := 0;
      case Bad => ret := -1;
      case Got(payload, n) =>
        var ok := ReadChannel(payload);
        ret := if ok then n else -1;
    }

    /** One turn of the loop: a payload is consumed, or the loop ends. */
    method TakeOne(at: nat, ghost buf: seq<byte>, ghost r: Reader<seq<byte>>) returns (more: bool, needExit: bool, next: nat)
      requires Valid() && availTailIndex > LENGTH_SIZE && Ahead(buf, at, r)
      modifies this`availTailIndex, this`received
      ensures Valid() && next + availTailIndex == at + old(availTailIndex)
      ensures more ==> !needExit && next > at && Ahead(buf, next, r)
      ensures !more ==> Over(buf, next, if needExit then Broken else Waiting, r)
    {
      var ret := TakePayload(at, buf);
      ghost var n := availTailIndex;
      TurnBound(parse, take, old(received), buf, at, n, received, false, ret, r);
      more, needExit, next := ret > 0, ret < 0, at;
      if more {
        availTailIndex := availTailIndex - ret;
        next := at + ret;
        TurnConsumed(parse, take, old(received), buf, at, n, received, false, ret, r, next, availTailIndex);
      } else {
        TurnEnds(parse, take, old(received), buf, at, n, received, false, ret, r);
      }
    }

    method Loop(ghost buf: seq<byte>, ghost r: Reader<seq<byte>>) returns (needExit: bool, indexBuf: nat)
      requires Valid() && Ahead(buf, 0, r)
      modifies this`availTailIndex, this`received
      ensures Valid() && indexBuf + availTailIndex == old(availTailIndex)
      ensures Over(buf, indexBuf, if needExit then Broken else Waiting, r)
    {
      indexBuf, needExit := 0, false;
      var more := true;
      while more && availTailIndex > LENGTH_SIZE
        invariant Valid() && indexBuf + availTailIndex == old(availTailIndex)
        invariant more ==> !needExit && Ahead(buf, indexBuf, r)
        invariant !more ==> Over(buf, indexBuf, if needExit then Broken else Waiting, r)
        decreases more, availTailIndex
      {
        more, needExit, indexBuf := TakeOne(indexBuf, buf, r);
      }
      if more {
        assert parse(buf[indexBuf..indexBuf + availTailIndex]).NeedMore?;
      }
    }

    method MoveToFront(from: nat)
      requires Valid() && from + availTailIndex <= ioBuf.Length
      modifies ioBuf
      ensures ioBuf[..availTailIndex] == old(ioBuf[from..from + availTailIndex])
    {
      forall i | 0 <= i < availTailIndex {
        ioBuf[i] := ioBuf[from + i];
      }
    }

    /** The read callback, for every value libuv may pass. */
    method ReadStream(nread: int)
      requires Valid() && availTailIndex + nread <= ioBuf.Length
      modifies this`availTailIndex, this`received, this`freed, ioBuf
      ensures Valid()
      ensures nread <= 0 ==>
        && received == old(received) && Contents() == old(Contents())
        && freed == (old(freed) || (nread < 0 && nread != UV_ENOBUFS))
      ensures nread > 0 ==>
        var r := Prepend(old(received), Drain(parse, take, old(ioBuf[..availTailIndex + nread])));
        received == r.msgs && Contents() == r.buffer && freed == (old(freed) || r.outcome.Broken?)
    {
      if nread == UV_ENOBUFS || nread == 0 {
        return;
      }
      if nread < 0 {
        freed := true;
        return;
      }
      availTailIndex := availTailIndex + nread;
      ghost var buf := ioBuf[..];
      ghost var r := Prepend(received, Drain(parse, take, ioBuf[..availTailIndex]));
      LeadsToDrain(parse, take, received, buf, 0, availTailIndex, ioBuf[..availTailIndex], r);
      var needExit, indexBuf := Loop(buf, r);
      assert ioBuf[indexBuf..indexBuf + availTailIndex] == buf[indexBuf..indexBuf + availTailIndex];
      if indexBuf > 0 && availTailIndex > 0 {
        MoveToFront(indexBuf);
      }
      if needExit {
        freed := true;
      }
    }

    method Fill(bytes: seq<byte>)
      requires Valid() && availTailIndex + |bytes| <= ioBuf.Length
      modifies ioBuf
      ensures ioBuf[..availTailIndex + |bytes|] == old(Contents()) + bytes
    {
      forall i | 0 <= i < |bytes| {
        ioBuf[availTailIndex + i] := bytes[i];
      }
    }

    /** One read of the event loop: at most what AllocCallback offers is taken from the stream. */
    method ReadOnce(stream: seq<byte>, wanted: nat) returns (n: nat)
      requires Valid() && stream != [] && 0 < wanted && availTailIndex < CHANNEL_BUF_SIZE
      modifies this, ioBuf
      ensures Valid() && (ioBuf == old(ioBuf) || fresh(ioBuf))
      ensures 0 < n <= |stream|
      ensures
        var r := Feed(parse, take, Reader(old(received), old(Contents()), Waiting), stream[..n]);
        received == r.msgs && Contents() == r.buffer && freed == (old(freed) || r.outcome.Broken?)
    {
      var _, len := AllocCallback(wanted);
      var most := Min(len, |stream|);
      assert 0 < most;
      n :| 0 < n <= most;
      ghost var all := Contents() + stream[..n];
      Fill(stream[..n]);
      assert ioBuf[..availTailIndex + n] == all;
      ReadStream(n);
    }

    /** The event loop over a whole stream: whatever number of bytes each read returns, the payloads
        sent are the payloads read. It ends because no read is ever offered an empty buffer. */
    method Receive(stream: seq<byte>, wanted: nat, ghost ps: seq<seq<byte>>)
      requires Valid() && !freed && Contents() == [] && received == [] && 0 < wanted
      requires parse == ParsePayload && Sendable(take, ps) && stream == Frames(SendChannel, ps)
      modifies this, ioBuf
      ensures Valid() && !freed && received == ps && Contents() == []
    {
      var rest := stream;
      ghost var pieces: seq<seq<byte>> := [];
      PayloadsCarried(take, ps);
      ReceivingStart(SendChannel, parse, take, CHANNEL_BUF_SIZE, ps);
      while rest != []
        invariant Valid() && (ioBuf == old(ioBuf) || fresh(ioBuf)) && !freed
        invariant Receiving(SendChannel, parse, take, CHANNEL_BUF_SIZE, ps, pieces, rest,
                            Reader(received, Contents(), Waiting))
        decreases |rest|
      {
        ghost var r := Reader(received, Contents(), Waiting);
        var n := ReadOnce(rest, wanted);
        ReceivingStep(SendChannel, parse, take, CHANNEL_BUF_SIZE, ps, pieces, rest, r, n);
        pieces, rest := pieces + [rest[..n]], rest[n..];
      }
      ReceivingEnd(SendChannel, parse, take, CHANNEL_BUF_SIZE, ps, pieces, Reader(received, Contents(), Waiting));
    }
  }
}
