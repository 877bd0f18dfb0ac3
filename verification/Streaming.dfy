/** Reassembly of messages from a byte stream that arrives in arbitrary pieces: the part that the
    session reader (FetchIOBuf) and the channel reader (ReadStream) have in common. */
module Streaming {
  import opened Bytes

  /** What the reader sees at the head of its buffer. */
  datatype Step<M> = NeedMore | Bad | Got(msg: M, size: nat)

  /** What the upper layer does with a message: the reader goes on, stops with the connection
      marked dead, or treats the stream as broken. */
  datatype Verdict = Continue | Stop | Refuse

  datatype Outcome = Waiting | Dead | Broken

  /** A reader's state: the messages handed up, the bytes kept, and whether it goes on. */
  datatype Reader<M> = Reader(msgs: seq<M>, buffer: seq<byte>, outcome: Outcome)

  function Prepend<M>(got: seq<M>, r: Reader<M>): Reader<M>
  {
    r.(msgs := got + r.msgs)
  }

  /** The reader's loop on buffer contents `s`. */
  function Drain<M>(parse: seq<byte> -> Step<M>, handle: M -> Verdict, s: seq<byte>): (r: Reader<M>)
    decreases |s|
  {
    match parse(s)
    case NeedMore => Reader([], s, Waiting)
    case Bad => Reader([], s, Broken)
    case Got(m, n) =>
      if n == 0 || n > |s| then Reader([], s, Broken)
      else match handle(m)
        case Refuse => Reader([m], s, Broken)
        case Stop => Reader([m], s[n..], Dead)
        case Continue => Prepend([m], Drain(parse, handle, s[n..]))
  }

  /** Arrival of one piece of the stream. */
  function Feed<M>(parse: seq<byte> -> Step<M>, handle: M -> Verdict, r: Reader<M>, piece: seq<byte>): Reader<M>
  {
    if r.outcome.Waiting? then Prepend(r.msgs, Drain(parse, handle, r.buffer + piece)) else r
  }

  function FeedAll<M>(parse: seq<byte> -> Step<M>, handle: M -> Verdict, r: Reader<M>, pieces: seq<seq<byte>>): Reader<M>
    decreases |pieces|
  {
    if pieces == [] then r else FeedAll(parse, handle, Feed(parse, handle, r, pieces[0]), pieces[1..])
  }

  lemma PrependTwice<M>(a: seq<M>, b: seq<M>, r: Reader<M>)
    ensures Prepend(a, Prepend(b, r)) == Prepend(a + b, r)
  {
    assert a + (b + r.msgs) == a + b + r.msgs;
  }

  /** One turn of the loop after `got` has been handed up, for every kind of head the reader can see. */
  lemma Turn<M(!new)>(parse: seq<byte> -> Step<M>, handle: M -> Verdict, got: seq<M>, s: seq<byte>)
    requires parse(s).Got? ==> 0 < parse(s).size <= |s|
    ensures
      var r := Prepend(got, Drain(parse, handle, s));
      match parse(s)
      case NeedMore => r == Reader(got, s, Waiting)
      case Bad => r == Reader(got, s, Broken)
      case Got(m, n) =>
        match handle(m)
        case Continue => r == Prepend(got + [m], Drain(parse, handle, s[n..]))
        case Stop => r == Reader(got + [m], s[n..], Dead)
        case Refuse => r == Reader(got + [m], s, Broken)
  {
    match parse(s)
    case NeedMore =>
    case Bad =>
    case Got(m, n) =>
      if handle(m).Continue? {
        PrependTwice(got, [m], Drain(parse, handle, s[n..]));
      }
  }

  /** A loop at index `at` of its buffer has ended there with n bytes left and `got` handed up: it gives `r`. */
  ghost predicate Ends<M(!new)>(got: seq<M>, buf: seq<byte>, at: nat, n: nat, outcome: Outcome, r: Reader<M>)
  {
    at + n <= |buf| && r == Reader(got, buf[at..at + n], outcome)
  }

  /** A loop there will give `r`, turn by turn. */
  ghost predicate Leads<M(!new)>(parse: seq<byte> -> Step<M>, handle: M -> Verdict, got: seq<M>, buf: seq<byte>,
                                 at: nat, n: nat, r: Reader<M>)
    decreases n
  {
    && at + n <= |buf|
    && match parse(buf[at..at + n])
       case NeedMore => Ends(got, buf, at, n, Waiting, r)
       case Bad => Ends(got, buf, at, n, Broken, r)
       case Got(m, k) =>
         && 0 < k <= n
         && match handle(m)
            case Continue => Leads(parse, handle, got + [m], buf, at + k, n - k, r)
            case Stop => Ends(got + [m], buf, at + k, n - k, Dead, r)
            case Refuse => Ends(got + [m], buf, at, n, Broken, r)
  }

  /** What it gives is Drain of the bytes, added to what was handed up before. */
  lemma {:induction false} LeadsToDrain<M(!new)>(parse: seq<byte> -> Step<M>, handle: M -> Verdict, got: seq<M>,
                                                 buf: seq<byte>, at: nat, n: nat, s: seq<byte>, r: Reader<M>)
    requires at + n <= |buf| && s == buf[at..at + n] && r == Prepend(got, Drain(parse, handle, s))
    requires forall t :: parse(t).Got? ==> 0 < parse(t).size <= |t|
    ensures Leads(parse, handle, got, buf, at, n, r)
    decreases n
  {
    if parse(s).Got? && handle(parse(s).msg).Continue? {
      Onward(parse, handle, got, buf, at, n, s, r);
      LeadsToDrain(parse, handle, got + [parse(s).msg], buf, at + parse(s).size, n - parse(s).size, s[parse(s).size..], r);
      LeadsOn(parse, handle, got, buf, at, n, s, r);
    } else {
      LeadsAtEnd(parse, handle, got, buf, at, n, s, r);
    }
  }

  /** A message that is taken moves the loop on by its size. */
  lemma Onward<M(!new)>(parse: seq<byte> -> Step<M>, handle: M -> Verdict, got: seq<M>,
                        buf: seq<byte>, at: nat, n: nat, s: seq<byte>, r: Reader<M>)
    requires at + n <= |buf| && s == buf[at..at + n] && r == Prepend(got, Drain(parse, handle, s))
    requires parse(s).Got? && 0 < parse(s).size <= |s| && handle(parse(s).msg).Continue?
    ensures var m, k := parse(s).msg, parse(s).size;
      s[k..] == buf[at + k..at + k + (n - k)] && r == Prepend(got + [m], Drain(parse, handle, s[k..]))
  {
    Turn(parse, handle, got, s);
  }

  lemma LeadsOn<M(!new)>(parse: seq<byte> -> Step<M>, handle: M -> Verdict, got: seq<M>,
                         buf: seq<byte>, at: nat, n: nat, s: seq<byte>, r: Reader<M>)
    requires at + n <= |buf| && s == buf[at..at + n]
    requires parse(s).Got? && 0 < parse(s).size <= n && handle(parse(s).msg).Continue?
    requires Leads(parse, handle, got + [parse(s).msg], buf, at + parse(s).size, n - parse(s).size, r)
    ensures Leads(parse, handle, got, buf, at, n, r)
  {
  }

  /** Any other turn ends the loop. */
  lemma LeadsAtEnd<M(!new)>(parse: seq<byte> -> Step<M>, handle: M -> Verdict, got: seq<M>,
                            buf: seq<byte>, at: nat, n: nat, s: seq<byte>, r: Reader<M>)
    requires at + n <= |buf| && s == buf[at..at + n] && r == Prepend(got, Drain(parse, handle, s))
    requires parse(s).Got? ==> 0 < parse(s).size <= |s| && !handle(parse(s).msg).Continue?
    ensures Leads(parse, handle, got, buf, at, n, r)
  {
    Turn(parse, handle, got, s);
    match parse(s)
    case NeedMore => assert Ends(got, buf, at, n, Waiting, r);
    case Bad => assert Ends(got, buf, at, n, Broken, r);
    case Got(m, k) =>
      assert s[k..] == buf[at + k..at + k + (n - k)];
      if handle(m).Stop? {
        assert Ends(got + [m], buf, at + k, n - k, Dead, r);
      } else {
        assert Ends(got + [m], buf, at, n, Broken, r);
      }
  }

  /** All a reading loop needs to know of the parser of its heads: nothing is decided before a head is
      complete, and a message is longer than its head. */
  ghost predicate ReadsHeads<M(!new)>(parse: seq<byte> -> Step<M>, headSize: nat)
  {
    && (forall s :: |s| <= headSize ==> parse(s).NeedMore?)
    && (forall s :: parse(s).Got? ==> headSize < parse(s).size <= |s|)
  }

  /** What one turn does with the bytes `s` after `got`: the message handed up, whether the reader died of
      it, and what is consumed, 0 for an unfinished message and a negative number for an error. */
  ghost predicate Handed<M(!new)>(parse: seq<byte> -> Step<M>, handle: M -> Verdict, s: seq<byte>,
                                  got: seq<M>, got': seq<M>, dead: bool, ret: int)
  {
    match parse(s)
    case NeedMore => ret == 0 && got' == got && !dead
    case Bad => ret < 0 && got' == got && !dead
    case Got(m, n) => got' == got + [m] && dead == handle(m).Stop? && if handle(m).Refuse? then ret < 0 else ret == n
  }

  /** A turn consumes no more than there is, and a reader that died has consumed the message it died of. */
  lemma TurnBound<M(!new)>(parse: seq<byte> -> Step<M>, handle: M -> Verdict, got: seq<M>, buf: seq<byte>, at: nat, n: nat,
                           got': seq<M>, dead: bool, ret: int, r: Reader<M>)
    requires Leads(parse, handle, got, buf, at, n, r) && Handed(parse, handle, buf[at..at + n], got, got', dead, ret)
    ensures ret <= n && (dead ==> ret > 0)
  {
  }

  /** Where the loop stands after a turn that consumed something. */
  lemma TurnConsumed<M(!new)>(parse: seq<byte> -> Step<M>, handle: M -> Verdict, got: seq<M>, buf: seq<byte>, at: nat, n: nat,
                              got': seq<M>, dead: bool, ret: int, r: Reader<M>, at': nat, n': nat)
    requires Leads(parse, handle, got, buf, at, n, r) && Handed(parse, handle, buf[at..at + n], got, got', dead, ret)
    requires ret > 0 && at' == at + ret && n' == n - ret
    ensures dead ==> Ends(got', buf, at', n', Dead, r)
    ensures !dead ==> Leads(parse, handle, got', buf, at', n', r)
  {
  }

  /** A turn that consumed nothing ends the loop. */
  lemma TurnEnds<M(!new)>(parse: seq<byte> -> Step<M>, handle: M -> Verdict, got: seq<M>, buf: seq<byte>, at: nat, n: nat,
                          got': seq<M>, dead: bool, ret: int, r: Reader<M>)
    requires Leads(parse, handle, got, buf, at, n, r) && Handed(parse, handle, buf[at..at + n], got, got', dead, ret)
    requires ret <= 0
    ensures Ends(got', buf, at, n, if ret == 0 then Waiting else Broken, r)
  {
  }

  /** What the loop keeps is a suffix of what it was given. */
  lemma {:induction false} DrainKeepsSuffix<M>(parse: seq<byte> -> Step<M>, handle: M -> Verdict, s: seq<byte>)
    ensures var r := Drain(parse, handle, s); |r.buffer| <= |s| && r.buffer == s[|s| - |r.buffer|..]
    decreases |s|
  {
    match parse(s)
    case NeedMore =>
    case Bad =>
    case Got(m, n) =>
      if 0 < n <= |s| && handle(m).Continue? {
        DrainKeepsSuffix(parse, handle, s[n..]);
      }
  }

  lemma {:induction false} FeedAllSnoc<M>(
    parse: seq<byte> -> Step<M>, handle: M -> Verdict, r: Reader<M>, pieces: seq<seq<byte>>, last: seq<byte>)
    ensures FeedAll(parse, handle, r, pieces + [last]) == Feed(parse, handle, FeedAll(parse, handle, r, pieces), last)
    decreases |pieces|
  {
    if pieces == [] {
      assert [] + [last] == [last];
      assert FeedAll(parse, handle, Feed(parse, handle, r, last), [last][1..]) == Feed(parse, handle, r, last);
    } else {
      assert (pieces + [last])[1..] == pieces[1..] + [last];
      FeedAllSnoc(parse, handle, Feed(parse, handle, r, pieces[0]), pieces[1..], last);
    }
  }

  /** A decision once taken is not changed by bytes that arrive later. */
  ghost predicate StableAt<M(!new)>(parse: seq<byte> -> Step<M>, s: seq<byte>, t: seq<byte>)
  {
    && (parse(s).Got? ==> 0 < parse(s).size <= |s| && parse(s + t) == parse(s))
    && (parse(s).Bad? ==> parse(s + t).Bad?)
  }

  ghost predicate Stable<M(!new)>(parse: seq<byte> -> Step<M>)
  {
    forall s, t :: StableAt(parse, s, t)
  }

  /** Two readers agree, up to the bytes kept by one that has given up. */
  ghost predicate Agree<M>(a: Reader<M>, b: Reader<M>)
  {
    a.msgs == b.msgs && a.outcome == b.outcome && (a.outcome.Waiting? ==> a.buffer == b.buffer)
  }

  lemma {:induction false} DrainSplit<M(!new)>(parse: seq<byte> -> Step<M>, handle: M -> Verdict, s: seq<byte>, t: seq<byte>)
    requires Stable(parse)
    ensures
      var r := Drain(parse, handle, s);
      Agree(Drain(parse, handle, s + t), if r.outcome.Waiting? then Prepend(r.msgs, Drain(parse, handle, r.buffer + t)) else r)
    decreases |s|
  {
    assert StableAt(parse, s, t);
    match parse(s)
    case NeedMore =>
    case Bad =>
    case Got(m, n) =>
      if handle(m).Continue? {
        DrainSplit(parse, handle, s[n..], t);
        assert (s + t)[n..] == s[n..] + t;
        var r := Drain(parse, handle, s[n..]);
        PrependTwice([m], r.msgs, Drain(parse, handle, r.buffer + t));
      }
  }

  /** Two pieces read separately have the effect of one read of both. */
  lemma FeedJoins<M(!new)>(parse: seq<byte> -> Step<M>, handle: M -> Verdict, r: Reader<M>, a: seq<byte>, b: seq<byte>)
    requires Stable(parse)
    ensures Agree(Feed(parse, handle, Feed(parse, handle, r, a), b), Feed(parse, handle, r, a + b))
  {
    if r.outcome.Waiting? {
      var s := r.buffer + a;
      DrainSplit(parse, handle, s, b);
      assert s + b == r.buffer + (a + b);
      var d := Drain(parse, handle, s);
      PrependTwice(r.msgs, d.msgs, Drain(parse, handle, d.buffer + b));
    }
  }

  /** Chunk independence, for every byte stream well-formed or not: the messages handed up, the way
      the run ends and, while it goes on, the kept suffix depend only on the bytes received. */
  lemma {:induction false} ChunkIndependence<M(!new)>(
    parse: seq<byte> -> Step<M>, handle: M -> Verdict, r: Reader<M>, pieces: seq<seq<byte>>)
    requires Stable(parse)
    requires pieces != []
    ensures Agree(FeedAll(parse, handle, r, pieces), Feed(parse, handle, r, Concat(pieces)))
    decreases |pieces|
  {
    var first := Feed(parse, handle, r, pieces[0]);
    if |pieces| == 1 {
      assert Concat(pieces[1..]) == [];
      assert Concat(pieces) == pieces[0];
      assert FeedAll(parse, handle, first, pieces[1..]) == first;
    } else {
      ChunkIndependence(parse, handle, first, pieces[1..]);
      FeedJoins(parse, handle, r, pieces[0], Concat(pieces[1..]));
    }
  }

  // ------------------------------------------------------------ framed streams

  function Frames<M>(frame: M -> seq<byte>, ms: seq<M>): seq<byte>
  {
    if ms == [] then [] else frame(ms[0]) + Frames(frame, ms[1..])
  }

  /** A frame is recognised as soon as it is complete and never before. */
  ghost predicate Frameable<M(!new)>(frame: M -> seq<byte>, parse: seq<byte> -> Step<M>, m: M)
  {
    && frame(m) != []
    && parse(frame(m)) == Got(m, |frame(m)|)
    && forall k {:trigger frame(m)[..k]} :: 0 <= k < |frame(m)| ==> parse(frame(m)[..k]).NeedMore?
  }

  /** A list of messages the framing carries: recognised, accepted, and each fitting in `room` bytes. */
  ghost predicate Carried<M(!new)>(
    frame: M -> seq<byte>, parse: seq<byte> -> Step<M>, handle: M -> Verdict, room: nat, ms: seq<M>)
  {
    && Stable(parse) && parse([]).NeedMore? && 0 < room
    && forall i :: 0 <= i < |ms| ==>
         Frameable(frame, parse, ms[i]) && handle(ms[i]).Continue? && |frame(ms[i])| <= room
  }

  /** A receiver in step with the sender of `ms`, when `sent` has arrived of the framed stream: whole
      messages handed up, the unfinished suffix kept, and room in the buffer for at least one byte more. */
  ghost predicate InSync<M(!new)>(frame: M -> seq<byte>, room: nat, ms: seq<M>, sent: seq<byte>, r: Reader<M>)
  {
    && r.outcome.Waiting?
    && r.msgs <= ms
    && sent == Frames(frame, r.msgs) + r.buffer
    && |r.buffer| < room
    && if r.msgs == ms then r.buffer == [] else r.buffer < frame(ms[|r.msgs|])
  }

  lemma InSyncCons<M(!new)>(frame: M -> seq<byte>, room: nat, ms: seq<M>, sent: seq<byte>, r: Reader<M>)
    requires ms != [] && InSync(frame, room, ms[1..], sent, r)
    ensures InSync(frame, room, ms, frame(ms[0]) + sent, Prepend([ms[0]], r))
  {
    var e := Prepend([ms[0]], r);
    assert e.msgs[1..] == r.msgs;
    assert ms == [ms[0]] + ms[1..];
    assert frame(ms[0]) + (Frames(frame, r.msgs) + r.buffer) == Frames(frame, e.msgs) + r.buffer;
  }

  lemma {:induction false} DrainFrames<M(!new)>(
    frame: M -> seq<byte>, parse: seq<byte> -> Step<M>, handle: M -> Verdict, room: nat, ms: seq<M>, s: seq<byte>)
    requires Carried(frame, parse, handle, room, ms)
    requires s <= Frames(frame, ms)
    ensures InSync(frame, room, ms, s, Drain(parse, handle, s))
    decreases |ms|
  {
    if ms == [] {
      assert s == [];
    } else {
      var f, tail := frame(ms[0]), Frames(frame, ms[1..]);
      assert Frameable(frame, parse, ms[0]);
      if |s| < |f| {
        assert s == f[..|s|];
        assert Frames(frame, []) + s == s;
      } else {
        var rest := s[|f|..];
        assert s == f + rest;
        assert StableAt(parse, f, rest);
        assert tail == Frames(frame, ms)[|f|..];
        DrainFrames(frame, parse, handle, room, ms[1..], rest);
        InSyncCons(frame, room, ms, rest, Drain(parse, handle, rest));
      }
    }
  }

  /** Every list of frames, cut into pieces anywhere, is handed up exactly and in order; and after
      any of the pieces the buffer is the unfinished suffix. */
  lemma FramedStream<M(!new)>(
    frame: M -> seq<byte>, parse: seq<byte> -> Step<M>, handle: M -> Verdict, room: nat, ms: seq<M>, pieces: seq<seq<byte>>)
    requires Carried(frame, parse, handle, room, ms)
    requires Concat(pieces) <= Frames(frame, ms)
    ensures InSync(frame, room, ms, Concat(pieces), FeedAll(parse, handle, Reader([], [], Waiting), pieces))
  {
    var s := Concat(pieces);
    DrainFrames(frame, parse, handle, room, ms, s);
    if pieces != [] {
      ChunkIndependence(parse, handle, Reader([], [], Waiting), pieces);
      assert [] + s == s;
      assert Prepend([], Drain(parse, handle, s)) == Drain(parse, handle, s);
    }
  }

  /** A receiver in sync that has everything has handed up everything. */
  lemma InSyncAtEnd<M(!new)>(frame: M -> seq<byte>, room: nat, ms: seq<M>, r: Reader<M>)
    requires InSync(frame, room, ms, Frames(frame, ms), r)
    ensures r == Reader(ms, [], Waiting)
  {
    if r.msgs != ms {
      assert r.msgs == ms[..|r.msgs|];
      FramesSplit(frame, ms, |r.msgs|);
      assert false;
    }
  }

  lemma {:induction false} FramesSplit<M>(frame: M -> seq<byte>, ms: seq<M>, k: nat)
    requires k < |ms|
    ensures |Frames(frame, ms)| >= |Frames(frame, ms[..k])| + |frame(ms[k])|
    decreases k
  {
    if k > 0 {
      FramesSplit(frame, ms[1..], k - 1);
      assert ms[..k][1..] == ms[1..][..k - 1];
      assert ms[..k][0] == ms[0];
    }
  }

  /** A run in progress: `pieces` have arrived and `rest` is still to come. */
  ghost predicate Receiving<M(!new)>(
    frame: M -> seq<byte>, parse: seq<byte> -> Step<M>, handle: M -> Verdict, room: nat, ms: seq<M>,
    pieces: seq<seq<byte>>, rest: seq<byte>, r: Reader<M>)
  {
    && Concat(pieces) + rest == Frames(frame, ms)
    && FeedAll(parse, handle, Reader([], [], Waiting), pieces) == r
    && InSync(frame, room, ms, Concat(pieces), r)
  }

  lemma ReceivingStart<M(!new)>(
    frame: M -> seq<byte>, parse: seq<byte> -> Step<M>, handle: M -> Verdict, room: nat, ms: seq<M>)
    requires Carried(frame, parse, handle, room, ms)
    ensures Receiving(frame, parse, handle, room, ms, [], Frames(frame, ms), Reader([], [], Waiting))
  {
    FramedStream(frame, parse, handle, room, ms, []);
    assert [] + Frames(frame, ms) == Frames(frame, ms);
  }

  lemma ReceivingStep<M(!new)>(
    frame: M -> seq<byte>, parse: seq<byte> -> Step<M>, handle: M -> Verdict, room: nat, ms: seq<M>,
    pieces: seq<seq<byte>>, rest: seq<byte>, r: Reader<M>, n: nat)
    requires Carried(frame, parse, handle, room, ms) && n <= |rest|
    requires Receiving(frame, parse, handle, room, ms, pieces, rest, r)
    ensures Receiving(frame, parse, handle, room, ms, pieces + [rest[..n]], rest[n..], Feed(parse, handle, r, rest[..n]))
  {
    var piece := rest[..n];
    FeedAllSnoc(parse, handle, Reader([], [], Waiting), pieces, piece);
    ConcatSnoc(pieces, piece, rest, n);
    FramedStream(frame, parse, handle, room, ms, pieces + [piece]);
  }

  lemma ConcatSnoc(pieces: seq<seq<byte>>, piece: seq<byte>, rest: seq<byte>, n: nat)
    requires n <= |rest| && piece == rest[..n]
    ensures Concat(pieces + [piece]) == Concat(pieces) + piece
    ensures Concat(pieces + [piece]) + rest[n..] == Concat(pieces) + rest
  {
    ConcatSplit(pieces, [piece]);
    assert [piece][1..] == [] && piece + [] == piece;
    Associative(Concat(pieces), piece, rest[n..]);
    assert piece + rest[n..] == rest;
  }

  lemma ReceivingEnd<M(!new)>(
    frame: M -> seq<byte>, parse: seq<byte> -> Step<M>, handle: M -> Verdict, room: nat, ms: seq<M>,
    pieces: seq<seq<byte>>, r: Reader<M>)
    requires Receiving(frame, parse, handle, room, ms, pieces, [], r)
    ensures r == Reader(ms, [], Waiting)
  {
    assert Concat(pieces) + [] == Concat(pieces);
    InSyncAtEnd(frame, room, ms, r);
  }
}
