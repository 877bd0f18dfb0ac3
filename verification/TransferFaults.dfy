/** Errors, refusals and losses in the protocol of FileTransfer: after one, no further file is opened, and
    what is left of the run is wound up. */
module TransferFaults {
  import opened Bytes
  import opened Transfer
  import opened FileTransfer

  lemma {:induction false} SumOutFinish(ms: seq<Msg>)
    ensures SumOut(ms + [Finish(true)]) == SumOut(ms)
  {
    if ms != [] {
      assert (ms + [Finish(true)])[1..] == ms[1..] + [Finish(true)];
      SumOutFinish(ms[1..]);
    }
  }

  lemma FailedRead(m: End, result: int)
    requires |m.ios| == 1 && m.ctx.master && !m.ctx.ioFinish && result < 0
    ensures OnFileIO(m, 0, result, [], true, true) ==
      m.(ctx := Tally(Shut(MarkFailed(m.ctx, result))), ios := [], out := m.out + [Finish(true)])
  {
    assert Without(m.ios, 0) == [];
  }

  lemma FailedWrite(s: End, i: nat, result: int)
    requires i < |s.ios| && !s.ctx.master && !s.ctx.ioFinish && result < s.ios[i].bytes
    ensures OnFileIO(s, i, result, [], true, true) ==
      s.(ctx := Tally(Shut(MarkFailed(s.ctx, result))), ios := Without(s.ios, i), out := s.out + [Finish(true)], closed := true)
  {
    assert Without(s.ios, i) + [] == Without(s.ios, i);
  }

  /** A callback that comes after the file was closed; the result no longer matters. */
  lemma LateWrite(s: End, i: nat, result: int)
    requires i < |s.ios| && !s.ctx.master && s.ctx.ioFinish
    ensures OnFileIO(s, i, result, [], true, true) ==
      if s.ctx.lastErrno != 0 || s.ctx.closeNotify then
        s.(ctx := Tally(Shut(s.ctx)), ios := Without(s.ios, i), out := s.out + [Finish(true)])
      else s.(ctx := Shut(s.ctx), ios := Without(s.ios, i))
  {
    assert Without(s.ios, i) + [] == Without(s.ios, i);
  }

  /** Whatever is written to the current file, the files dealt with keep their contents. */
  lemma OthersKept(files: Files, names: seq<Name>, y: System, f: seq<byte>)
    requires Basics(files, names, y) && Unresolved(names, y)
    ensures LogOk(files, names, y.disk[y.m.ctx.name := f], y.log)
  {
    forall k | 0 <= k < |y.log| ensures y.log[k].name != y.m.ctx.name {
      assert y.log[k].name == names[|names| - 1 - k];
    }
  }

  lemma OutSnoc(src: seq<byte>, m: End, at: nat, data: seq<byte>, t: End)
    requires OutOk(src, m) && m.ctx.lastErrno == 0 && Piece(src, at, data) && |data| <= READ_MAX
    requires t.out == m.out + [Data(at, data)]
    ensures OutOk(src, t)
  {
  }

  /** The master's half after a read, sent or not, with the next one granted or not. */
  lemma HalfRead(src: seq<byte>, m: End, data: seq<byte>, sent: bool, granted: bool)
    requires MasterHalf(src, m) && m.ios != [] && Piece(src, m.ctx.indexIO, data) && |data| <= READ_MAX
    ensures MasterHalf(src, Advanced(m, data, sent, granted))
  {
    var t := Advanced(m, data, sent, granted);
    if sent {
      OutSnoc(src, m, m.ctx.indexIO, data, t);
    } else {
      assert t.out == m.out;
    }
  }

  lemma HalfReadFailed(src: seq<byte>, m: End, result: int)
    requires MasterHalf(src, m) && m.ios != [] && m.ctx.master && result < 0
    ensures MasterHalf(src, OnFileIO(m, 0, result, [], true, true))
  {
    FailedRead(m, result);
  }

  /** The data phase, seen as one in which the master may stop. */
  lemma StreamingHalf(files: Files, names: seq<Name>, y: System)
    requires Common(files, names, y) && Streaming(files, names, y)
    ensures MasterHalf(Source(files, y), y.m) && Unharmed(files, y.s, y.log)
  {
  }

  /** Reading on does not help a slave that has missed a piece. */
  lemma StarvedReads(src: seq<byte>, m: End, s: End, data: seq<byte>, sent: bool, granted: bool)
    requires Starved(src, m, s) && Reading(src, m) && m.ctx.fileSize == |src| && m.ctx.lastErrno == 0
    requires m.ctx.indexIO + |data| <= |src|
    ensures Starved(src, Advanced(m, data, sent, granted), s)
  {
    SumOutSnoc(m.out, m.ctx.indexIO, data);
  }

  lemma StarvedReadFails(src: seq<byte>, m: End, s: End, result: int)
    requires Starved(src, m, s) && Reading(src, m) && m.ctx.master && m.ctx.indexIO <= |src| && result < 0
    ensures Starved(src, OnFileIO(m, 0, result, [], true, true), s)
  {
    FailedRead(m, result);
    SumOutFinish(m.out);
  }

  /** A piece that is not sent, or not followed by another, leaves the slave waiting. */
  lemma StarvedByRead(src: seq<byte>, m: End, s: End, data: seq<byte>, sent: bool)
    requires Reading(src, m) && m.ctx.fileSize == |src| && !m.closed && m.ctx.lastErrno == 0
    requires !s.ctx.ioFinish && s.out == [] && PiecesOk(src, m.out, s.ios)
    requires s.ctx.indexIO + SumIO(s.ios) + SumOut(m.out) == m.ctx.indexIO && (src == [] ==> m.out == [] && s.ios == [])
    requires sent ==> data != [] && m.ctx.indexIO + |data| < |src|
    ensures Starved(src, Advanced(m, data, sent, !sent), s)
  {
    SumOutSnoc(m.out, m.ctx.indexIO, data);
  }

  /** A refused or unsent read in the data phase leaves the slave waiting for bytes that will not come. */
  lemma ReadStops(files: Files, names: seq<Name>, y: System, n: nat, sent: bool)
    requires Common(files, names, y) && Streaming(files, names, y) && CanRead(files, y, n)
    requires sent ==> 0 < n && y.m.ctx.indexIO + n < y.m.ctx.fileSize
    ensures var z := MasterReads(files, y, n, sent, !sent); Basics(files, names, z) && Halted(files, names, z)
  {
    ReadResult(files, y, n, sent, !sent);
    StreamingHalf(files, names, y);
    DeliveredPiece(files, y, n);
    HalfRead(Source(files, y), y.m, Delivered(files, y, n), sent, !sent);
    StarvedByRead(Source(files, y), y.m, y.s, Delivered(files, y, n), sent);
    StreamingStarves(files, names, y, Advanced(y.m, Delivered(files, y, n), sent, !sent));
  }

  lemma StreamingStarves(files: Files, names: seq<Name>, y: System, t: End)
    requires Common(files, names, y) && Streaming(files, names, y) && MasterHalf(Source(files, y), t)
    requires t.ctx == y.m.ctx.(indexIO := t.ctx.indexIO, ioFinish := t.ctx.ioFinish, isFdOpen := t.ctx.isFdOpen)
    requires Starved(Source(files, y), t, y.s)
    ensures Basics(files, names, y.(m := t)) && Halted(files, names, y.(m := t))
  {
  }

  lemma ReadFailureStops(files: Files, names: seq<Name>, y: System, result: int)
    requires Common(files, names, y) && Streaming(files, names, y) && |y.m.ios| > 0 && result < 0
    ensures Basics(files, names, ReadFails(y, result)) && Halted(files, names, ReadFails(y, result))
  {
    StreamingHalf(files, names, y);
    HalfReadFailed(Source(files, y), y.m, result);
    FailedRead(y.m, result);
    SumOutFinish(y.m.out);
    assert Starved(Source(files, y), ReadFails(y, result).m, y.s);
  }

  /** A failed write, while the slave still takes part, makes it count the file and finish its task. */
  lemma WriteFailureStops(files: Files, names: seq<Name>, y: System, i: nat, result: int)
    requires Basics(files, names, y) && Unresolved(names, y) && Enabled(files, y, WriteFailed(i, result))
    requires !y.s.ctx.ioFinish && y.s.out == [] && Unharmed(files, y.s, y.log) && !y.m.closed && y.s.ctx.name == y.m.ctx.name
    ensures var z := WriteFails(y, i, result);
      Basics(files, names, z) && BrokenOff(z.m, z.s, z.log) && z.m == y.m && SameSlave(y.s, z.s)
  {
    FailedWrite(y.s, i, result);
    OthersKept(files, names, y, WriteFails(y, i, result).disk[y.m.ctx.name]);
  }

  /** What no event after an error changes at the slave. */
  ghost predicate SameSlave(a: End, b: End)
  {
    b.opens == a.opens && b.ctx.name == a.ctx.name && b.ctx.fileSize == a.ctx.fileSize && b.ctx.isDir == a.ctx.isDir
  }

  // The same events after an earlier error.

  lemma HaltedReads(files: Files, names: seq<Name>, y: System, n: nat, sent: bool, granted: bool)
    requires Basics(files, names, y) && Halted(files, names, y) && CanRead(files, y, n)
    ensures var z := MasterReads(files, y, n, sent, granted); Basics(files, names, z) && Halted(files, names, z)
  {
    ReadResult(files, y, n, sent, granted);
    DeliveredPiece(files, y, n);
    var data := Delivered(files, y, n);
    HalfRead(Source(files, y), y.m, data, sent, granted);
    if Starved(Source(files, y), y.m, y.s) {
      StarvedReads(Source(files, y), y.m, y.s, data, sent, granted);
    }
    HaltedMaster(files, names, y, Advanced(y.m, data, sent, granted));
  }

  /** The master has read on. */
  lemma HaltedMaster(files: Files, names: seq<Name>, y: System, t: End)
    requires Basics(files, names, y) && Halted(files, names, y) && y.m.ios != [] && MasterHalf(Source(files, y), t)
    requires t.closed == y.m.closed
    requires t.ctx == y.m.ctx.(indexIO := t.ctx.indexIO, ioFinish := t.ctx.ioFinish, isFdOpen := t.ctx.isFdOpen)
    requires Starved(Source(files, y), y.m, y.s) ==> Starved(Source(files, y), t, y.s)
    ensures Basics(files, names, y.(m := t)) && Halted(files, names, y.(m := t))
  {
  }

  lemma HaltedReadFails(files: Files, names: seq<Name>, y: System, result: int)
    requires Basics(files, names, y) && Halted(files, names, y) && |y.m.ios| > 0 && result < 0
    ensures Basics(files, names, ReadFails(y, result)) && Halted(files, names, ReadFails(y, result))
  {
    HalfReadFailed(Source(files, y), y.m, result);
    if Starved(Source(files, y), y.m, y.s) {
      StarvedReadFails(Source(files, y), y.m, y.s, result);
    }
    FailedRead(y.m, result);
  }

  lemma HalfTaken(src: seq<byte>, m: End)
    requires MasterHalf(src, m) && m.out != []
    ensures MasterHalf(src, m.(out := m.out[1..]))
  {
  }

  lemma BrokenTakes(s: End, msg: Msg, granted: bool)
    requires s.ctx.ioFinish && s.closed && s.ctx.taskQueue == [] && (msg.Data? || msg == Finish(true))
    ensures var t := OnMessage(s, msg, true, granted);
      t == s.(ctx := s.ctx.(isFdOpen := false), out := t.out) && s.out <= t.out
  {
  }

  /** The waiting slave takes a piece. */
  lemma StarvedTakesData(src: seq<byte>, m: End, s: End, io: IO)
    requires Starved(src, m, s) && OutOk(src, m) && m.out != [] && m.out[0].Data? && !s.ctx.isStableBufSize
    requires io == IO(m.out[0].index, |m.out[0].bytes|, m.out[0].bytes, false)
    ensures OnMessage(s, m.out[0], true, true) == s.(ios := s.ios + [io])
    ensures Starved(src, m.(out := m.out[1..]), s.(ios := s.ios + [io]))
  {
    SumIOJoin(s.ios, [io]);
    assert SumIO([io]) == |io.data|;
  }

  /** The waiting slave takes the FINISH(1) of a failed read. */
  lemma StarvedTakesFinish(src: seq<byte>, m: End, s: End)
    requires Starved(src, m, s) && MasterHalf(src, m) && m.out != [] && m.out[0] == Finish(true) && s.ctx.taskQueue == []
    ensures var t := OnMessage(s, m.out[0], true, true);
      Told(m.(out := m.out[1..]), t) && t == s.(ctx := s.ctx.(isFdOpen := false, ioFinish := true), out := t.out)
  {
  }

  /** A refused write: the slave finishes its task, and the piece is lost. */
  lemma StarvedRefuses(src: seq<byte>, m: End, s: End)
    requires Starved(src, m, s) && OutOk(src, m) && m.out != [] && m.out[0].Data? && !m.closed
    ensures var t := OnMessage(s, m.out[0], true, false);
      && t == s.(ctx := s.ctx.(isFdOpen := false), closed := true)
      && Starved(src, m.(out := m.out[1..]), t)
  {
  }

  lemma DataRefusedStops(files: Files, names: seq<Name>, y: System)
    requires Common(files, names, y) && Streaming(files, names, y) && Enabled(files, y, DataRefused)
    ensures Basics(files, names, SlaveReceives(y, false)) && Halted(files, names, SlaveReceives(y, false))
  {
    StreamingHalf(files, names, y);
    HalfTaken(Source(files, y), y.m);
    StreamingRefuses(Source(files, y), y.m, y.s);
  }

  lemma StreamingRefuses(src: seq<byte>, m: End, s: End)
    requires (Reading(src, m) || ReadAll(src, m)) && m.ctx.indexIO <= |src| && !m.closed && m.ctx.lastErrno == 0
    requires !s.ctx.ioFinish && s.out == [] && PiecesOk(src, m.out, s.ios) && m.out != []
    requires s.ctx.indexIO + SumIO(s.ios) + SumOut(m.out) == m.ctx.indexIO
    requires src == [] ==> |m.out| + |s.ios| == if m.ctx.ioFinish then 1 else 0
    ensures var t := OnMessage(s, m.out[0], true, false);
      && t == s.(ctx := s.ctx.(isFdOpen := false), closed := true)
      && Starved(src, m.(out := m.out[1..]), t)
  {
    assert m.out[0].Data? && Piece(src, m.out[0].index, m.out[0].bytes);
  }

  lemma BeginRefusedStops(files: Files, names: seq<Name>, y: System)
    requires Common(files, names, y) && Beginning(files, names, y)
    ensures Basics(files, names, MasterReceives(y, false)) && Halted(files, names, MasterReceives(y, false))
    ensures MasterReceives(y, false).m.ios == [] && MasterReceives(y, false).m.closed
  {
    assert Starved(Source(files, y), MasterReceives(y, false).m, MasterReceives(y, false).s);
  }

  lemma HaltedRefuses(files: Files, names: seq<Name>, y: System)
    requires Basics(files, names, y) && Halted(files, names, y) && Enabled(files, y, DataRefused)
    ensures Basics(files, names, SlaveReceives(y, false)) && Halted(files, names, SlaveReceives(y, false))
  {
    HalfTaken(Source(files, y), y.m);
    if BrokenOff(y.m, y.s, y.log) {
      BrokenTakes(y.s, y.m.out[0], false);
    } else {
      StarvedRefuses(Source(files, y), y.m, y.s);
    }
  }

  lemma HaltedTaken(files: Files, names: seq<Name>, y: System)
    requires Basics(files, names, y) && Halted(files, names, y) && Enabled(files, y, SlaveTakes)
    ensures Basics(files, names, SlaveReceives(y, true)) && Halted(files, names, SlaveReceives(y, true))
  {
    var src := Source(files, y);
    HalfTaken(src, y.m);
    if BrokenOff(y.m, y.s, y.log) {
      BrokenTakes(y.s, y.m.out[0], true);
    } else {
      var msg := y.m.out[0];
      if msg.Data? {
        StarvedTakesData(src, y.m, y.s, IO(msg.index, |msg.bytes|, msg.bytes, false));
      } else {
        StarvedTakesFinish(src, y.m, y.s);
      }
    }
  }

  lemma HaltedAnswer(files: Files, names: seq<Name>, y: System)
    requires Basics(files, names, y) && Halted(files, names, y) && Enabled(files, y, MasterTakes)
    ensures Basics(files, names, MasterReceives(y, true)) && Halted(files, names, MasterReceives(y, true))
  {
    assert Told(y.m, y.s);
  }

  lemma HaltedApplies(files: Files, names: seq<Name>, y: System, i: nat)
    requires Basics(files, names, y) && Halted(files, names, y) && i < |y.s.ios|
    ensures Basics(files, names, Applies(y, i)) && Halted(files, names, Applies(y, i))
  {
    OthersKept(files, names, y, Applies(y, i).disk[y.m.ctx.name]);
    SumIOApplied(y.s.ios, i);
    if Starved(Source(files, y), y.m, y.s) {
      assert Starved(Source(files, y), y.m, Applies(y, i).s);
    }
  }

  lemma StarvedWrites(src: seq<byte>, m: End, s: End, i: nat)
    requires Starved(src, m, s) && i < |s.ios| && s.ctx.fileSize == |src| && !s.ctx.master && s.ctx.lastErrno == 0
    requires m.ctx.indexIO <= |src|
    ensures var t := OnFileIO(s, i, s.ios[i].bytes, [], true, true);
      Starved(src, m, t) && t == s.(ctx := Count(s.ctx, s.ios[i].bytes), ios := Without(s.ios, i))
  {
    SumIOWithout(s.ios, i);
    GoodWrite(s, i);
    assert forall k :: 0 <= k < |Without(s.ios, i)| ==> Without(s.ios, i)[k] == s.ios[if k < i then k else k + 1];
  }

  lemma HaltedWrites(files: Files, names: seq<Name>, y: System, i: nat)
    requires Basics(files, names, y) && Halted(files, names, y) && i < |y.s.ios|
    ensures Basics(files, names, Writes(y, i)) && Halted(files, names, Writes(y, i)) && Writes(y, i).log == y.log
  {
    var src := Source(files, y);
    if Unharmed(files, y.s, y.log) && Starved(src, y.m, y.s) {
      StarvedWrites(src, y.m, y.s, i);
    } else {
      LateWrite(y.s, i, y.s.ios[i].bytes);
    }
  }

  lemma HaltedWriteFails(files: Files, names: seq<Name>, y: System, i: nat, result: int)
    requires Basics(files, names, y) && Halted(files, names, y) && Enabled(files, y, WriteFailed(i, result))
    ensures Basics(files, names, WriteFails(y, i, result)) && Halted(files, names, WriteFails(y, i, result))
  {
    WriteFailureStops(files, names, y, i, result);
  }

  lemma LateWriteFails(files: Files, names: seq<Name>, y: System, i: nat, result: int)
    requires Basics(files, names, y) && Halted(files, names, y) && Enabled(files, y, LateFailed(i, result))
    ensures Basics(files, names, WriteFails(y, i, result)) && Halted(files, names, WriteFails(y, i, result))
  {
    LateWrite(y.s, i, result);
    OthersKept(files, names, y, WriteFails(y, i, result).disk[y.m.ctx.name]);
  }

  lemma FaultMeansStreaming(files: Files, names: seq<Name>, y: System, e: Event)
    requires Working(files, names, y) && Enabled(files, y, e) && IOFault(e)
    ensures Common(files, names, y) && if e.BeginRefused? then Beginning(files, names, y) else Streaming(files, names, y)
  {
  }

  /** An error or a refusal of file IO stops the transfer of the current file for good. */
  lemma FaultStops(files: Files, names: seq<Name>, y: System, e: Event)
    requires Working(files, names, y) && Enabled(files, y, e) && IOFault(e)
    ensures Basics(files, names, Step(files, y, e)) && Halted(files, names, Step(files, y, e))
  {
    FaultMeansStreaming(files, names, y, e);
    match e
    case ReadRefused(n) => ReadStops(files, names, y, n, true);
    case ReadUnsent(n) => ReadStops(files, names, y, n, false);
    case ReadFailed(result) => ReadFailureStops(files, names, y, result);
    case WriteFailed(i, result) => StreamingWriteFails(files, names, y, i, result);
    case BeginRefused => BeginRefusedStops(files, names, y);
    case DataRefused => DataRefusedStops(files, names, y);
  }

  lemma StreamingWriteFails(files: Files, names: seq<Name>, y: System, i: nat, result: int)
    requires Common(files, names, y) && Streaming(files, names, y) && Enabled(files, y, WriteFailed(i, result))
    ensures Basics(files, names, WriteFails(y, i, result)) && Halted(files, names, WriteFails(y, i, result))
  {
    StreamingHalf(files, names, y);
    WriteFailureStops(files, names, y, i, result);
  }

  // A request for an open or a control message gets lost.

  /** Outside the data phase only one thing is in progress. */
  lemma CutStops(files: Files, names: seq<Name>, y: System, e: Event)
    requires Working(files, names, y) && Enabled(files, y, e) && (Lost(e) || e.CheckRefused?)
    ensures Hushed(files, names, Step(files, y, e)) && (Step(files, y, e).s.closed <==> e.CheckRefused?)
  {
    if e.MasterUnsent? || e.SlaveUnsent? {
      UnsentStops(files, names, y, e);
    } else {
      RefusedStops(files, names, y, e);
    }
  }

  lemma RefusedStops(files: Files, names: seq<Name>, y: System, e: Event)
    requires Working(files, names, y) && Enabled(files, y, e)
    requires e.CheckRefused? || e.MasterOpenRefused? || e.SlaveOpenRefused?
    ensures Hushed(files, names, Step(files, y, e)) && (Step(files, y, e).s.closed <==> e.CheckRefused?)
  {
    match e
    case CheckRefused => CheckRefusedStops(files, names, y);
    case MasterOpenRefused => OpenRefusedStops(files, names, y);
    case SlaveOpenRefused => OpenRefusedStops(files, names, y);
  }

  lemma UnsentStops(files: Files, names: seq<Name>, y: System, e: Event)
    requires Working(files, names, y) && Enabled(files, y, e) && (e.MasterUnsent? || e.SlaveUnsent?)
    ensures Hushed(files, names, Step(files, y, e)) && !Step(files, y, e).s.closed
  {
    match e
    case MasterUnsent => MasterUnsentStops(files, names, y);
    case SlaveUnsent => SlaveUnsentStops(files, names, y);
  }

  lemma OpenRefusedStops(files: Files, names: seq<Name>, y: System)
    requires Working(files, names, y)
    ensures y.m.opens > 0 ==> Hushed(files, names, y.(m := OpenRefused(y.m))) && !y.s.closed
    ensures y.s.opens > 0 ==> Hushed(files, names, y.(s := OpenRefused(y.s))) && !y.s.closed
  {
  }

  lemma CheckRefusedStops(files: Files, names: seq<Name>, y: System)
    requires Working(files, names, y) && Enabled(files, y, CheckRefused)
    ensures Hushed(files, names, SlaveTurnsDown(y)) && SlaveTurnsDown(y).s.closed
  {
    assert Checking(files, names, y);
  }

  lemma MasterUnsentStops(files: Files, names: seq<Name>, y: System)
    requires Working(files, names, y) && Enabled(files, y, MasterUnsent)
    ensures Hushed(files, names, y.(m := DropLast(y.m))) && !y.s.closed
  {
    assert !Streaming(files, names, y);
    assert |y.m.out| == 1;
  }

  lemma SlaveUnsentStops(files: Files, names: seq<Name>, y: System)
    requires Working(files, names, y) && Enabled(files, y, SlaveUnsent)
    ensures Hushed(files, names, y.(s := DropLast(y.s)))
  {
    assert |y.s.out| == 1;
  }

  /** Nothing happens any more when nothing is in progress. */
  lemma SilentIsStuck(files: Files, y: System, e: Event)
    requires Silent(y)
    ensures !Enabled(files, y, e)
  {
  }

  lemma HaltedMasterUnsent(files: Files, names: seq<Name>, y: System)
    requires Basics(files, names, y) && Halted(files, names, y) && Enabled(files, y, MasterUnsent)
    ensures Basics(files, names, y.(m := DropLast(y.m))) && Halted(files, names, y.(m := DropLast(y.m)))
  {
    SumOutDrop(y.m.out);
    assert !Told(y.m, y.s);
    if Starved(Source(files, y), y.m, y.s) {
      assert Starved(Source(files, y), DropLast(y.m), y.s);
    }
    assert MasterHalf(Source(files, y), DropLast(y.m));
  }

  lemma {:induction false} SumOutDrop(ms: seq<Msg>)
    requires ms != [] && ms[|ms| - 1] == Finish(true)
    ensures SumOut(ms[..|ms| - 1]) == SumOut(ms)
  {
    assert ms == ms[..|ms| - 1] + [Finish(true)];
    SumOutFinish(ms[..|ms| - 1]);
  }

  lemma HaltedSlaveUnsent(files: Files, names: seq<Name>, y: System)
    requires Basics(files, names, y) && Halted(files, names, y) && Enabled(files, y, SlaveUnsent)
    ensures Basics(files, names, y.(s := DropLast(y.s))) && Halted(files, names, y.(s := DropLast(y.s)))
    ensures Told(y.m, y.s) && DropLast(y.s).out == []
  {
    assert Told(y.m, y.s);
    assert Told(y.m, DropLast(y.s));
  }

  lemma HaltedStep(files: Files, names: seq<Name>, y: System, e: Event)
    requires Basics(files, names, y) && Halted(files, names, y) && Enabled(files, y, e)
    ensures Basics(files, names, Step(files, y, e)) && Halted(files, names, Step(files, y, e))
  {
    match e
    case MasterOpened(_) =>
    case SlaveOpened(_) =>
    case MasterTakes => HaltedAnswer(files, names, y);
    case MasterRead(n) => HaltedReads(files, names, y, n, true, true);
    case ReadRefused(n) => HaltedReads(files, names, y, n, true, false);
    case ReadUnsent(n) => HaltedReads(files, names, y, n, false, true);
    case ReadFailed(result) => HaltedReadFails(files, names, y, result);
    case SlaveTakes => HaltedTaken(files, names, y);
    case Applied(i) => HaltedApplies(files, names, y, i);
    case Written(i) => HaltedWrites(files, names, y, i);
    case WriteFailed(i, result) => HaltedWriteFails(files, names, y, i, result);
    case LateFailed(i, result) => LateWriteFails(files, names, y, i, result);
    case BeginRefused =>
    case DataRefused => HaltedRefuses(files, names, y);
    case CheckRefused => NoCheck(files, names, y);
    case MasterOpenRefused =>
    case SlaveOpenRefused =>
    case MasterUnsent => HaltedMasterUnsent(files, names, y);
    case SlaveUnsent => HaltedSlaveUnsent(files, names, y);
  }

  lemma NoCheck(files: Files, names: seq<Name>, y: System)
    requires Halted(files, names, y)
    ensures !Enabled(files, y, CheckRefused)
  {
  }

  lemma StepKeepsInv(files: Files, names: seq<Name>, y: System, e: Event)
    requires Inv(files, names, y) && Enabled(files, y, e)
    ensures Inv(files, names, Step(files, y, e))
  {
    if Hushed(files, names, y) {
      SilentIsStuck(files, y, e);
    } else if !Working(files, names, y) {
      HaltedStep(files, names, y, e);
    } else if !Fault(e) {
      WorkingStep(files, names, y, e);
    } else if IOFault(e) {
      FaultStops(files, names, y, e);
    } else {
      CutStops(files, names, y, e);
    }
  }

  lemma HushedIsNotWorking(files: Files, names: seq<Name>, y: System)
    requires Hushed(files, names, y)
    ensures !Working(files, names, y)
  {
    if Streaming(files, names, y) {
      StreamingIsNotSilent(files, names, y);
    }
  }

  lemma StreamingIsNotSilent(files: Files, names: seq<Name>, y: System)
    requires Streaming(files, names, y)
    ensures !Silent(y)
  {
  }

  lemma HaltedIsNotWorking(files: Files, names: seq<Name>, y: System)
    requires Halted(files, names, y)
    ensures !Working(files, names, y)
  {
    if y.m.out != [] {
      assert y.m.out[0].Data? || y.m.out[0] == Finish(true);
    }
    if Streaming(files, names, y) {
      StreamingIsNotStarved(files, names, y);
    }
  }

  lemma StreamingIsNotStarved(files: Files, names: seq<Name>, y: System)
    requires Streaming(files, names, y)
    ensures !Starved(Source(files, y), y.m, y.s)
  {
    if Source(files, y) == [] && y.m.out != [] {
      assert y.m.out[0].Data?;
    }
  }

  /** The errors each end has on record, step by step. */
  ghost predicate ErrnosFollow(y: System, e: Event, z: System)
  {
    && (z.m.ctx.lastErrno != 0 <==> y.m.ctx.lastErrno != 0 || e.ReadFailed?)
    && (z.s.ctx.lastErrno != 0 <==> y.s.ctx.lastErrno != 0 || e.WriteFailed?)
  }

  lemma HaltedReadErrnos(files: Files, names: seq<Name>, y: System, e: Event)
    requires Basics(files, names, y) && Halted(files, names, y) && Enabled(files, y, e)
    requires e.MasterRead? || e.ReadRefused? || e.ReadUnsent? || e.ReadFailed?
    ensures ErrnosFollow(y, e, Step(files, y, e))
  {
    match e
    case MasterRead(n) => ReadErrnos(files, y, n, true, true);
    case ReadRefused(n) => ReadErrnos(files, y, n, true, false);
    case ReadUnsent(n) => ReadErrnos(files, y, n, false, true);
    case ReadFailed(result) => FailedRead(y.m, result);
  }

  lemma HaltedErrnos(files: Files, names: seq<Name>, y: System, e: Event)
    requires Basics(files, names, y) && Halted(files, names, y) && Enabled(files, y, e)
    ensures ErrnosFollow(y, e, Step(files, y, e))
  {
    match e
    case MasterOpened(_) =>
    case SlaveOpened(_) =>
    case MasterTakes => assert Told(y.m, y.s);
    case SlaveTakes => TakenErrno(files, names, y);
    case Applied(i) =>
    case Written(i) => WrittenErrno(files, names, y, i);
    case WriteFailed(i, result) => FailedWrite(y.s, i, result);
    case LateFailed(i, result) => LateWrite(y.s, i, result);
    case BeginRefused =>
    case DataRefused => RefusedErrno(y.s, y.m.out[0]);
    case CheckRefused => NoCheck(files, names, y);
    case MasterOpenRefused =>
    case SlaveOpenRefused =>
    case MasterUnsent =>
    case SlaveUnsent =>
    case _ => HaltedReadErrnos(files, names, y, e);
  }

  lemma RefusedErrno(s: End, msg: Msg)
    requires msg.Data?
    ensures OnMessage(s, msg, true, false).ctx.lastErrno == s.ctx.lastErrno
  {
  }

  lemma ReadErrnos(files: Files, y: System, n: nat, sent: bool, granted: bool)
    requires MasterHalf(Source(files, y), y.m) && CanRead(files, y, n) && y.m.ctx.master
    ensures MasterReads(files, y, n, sent, granted).m.ctx.lastErrno == y.m.ctx.lastErrno == 0
  {
    ReadResult(files, y, n, sent, granted);
  }

  lemma TakenErrno(files: Files, names: seq<Name>, y: System)
    requires Basics(files, names, y) && Halted(files, names, y) && Enabled(files, y, SlaveTakes)
    ensures SlaveReceives(y, true).s.ctx.lastErrno == y.s.ctx.lastErrno
  {
    var msg := y.m.out[0];
    if BrokenOff(y.m, y.s, y.log) {
      BrokenTakes(y.s, msg, true);
    } else if msg.Data? {
      StarvedTakesData(Source(files, y), y.m, y.s, IO(msg.index, |msg.bytes|, msg.bytes, false));
    } else {
      StarvedTakesFinish(Source(files, y), y.m, y.s);
    }
  }

  lemma WrittenErrno(files: Files, names: seq<Name>, y: System, i: nat)
    requires Basics(files, names, y) && Halted(files, names, y) && i < |y.s.ios|
    ensures Writes(y, i).s.ctx.lastErrno == y.s.ctx.lastErrno
  {
    if Unharmed(files, y.s, y.log) && Starved(Source(files, y), y.m, y.s) {
      StarvedWrites(Source(files, y), y.m, y.s, i);
    } else {
      LateWrite(y.s, i, y.s.ios[i].bytes);
    }
  }

  lemma DroppedErrnos(files: Files, names: seq<Name>, y: System, n: nat, sent: bool)
    requires Common(files, names, y) && Streaming(files, names, y) && CanRead(files, y, n)
    ensures var z := MasterReads(files, y, n, sent, !sent); z.m.ctx.lastErrno == 0 && z.s == y.s
  {
    ReadResult(files, y, n, sent, !sent);
  }

  lemma FaultErrnos(files: Files, names: seq<Name>, y: System, e: Event)
    requires Common(files, names, y) && Enabled(files, y, e) && IOFault(e)
    requires if e.BeginRefused? then Beginning(files, names, y) else Streaming(files, names, y)
    ensures ErrnosFollow(y, e, Step(files, y, e))
  {
    match e
    case ReadRefused(n) => DroppedErrnos(files, names, y, n, true);
    case ReadUnsent(n) => DroppedErrnos(files, names, y, n, false);
    case ReadFailed(result) => ReadFailureErrnos(y, result);
    case WriteFailed(i, result) => WriteFailureErrnos(y, i, result);
    case BeginRefused =>
    case DataRefused => RefusedErrno(y.s, y.m.out[0]);
  }

  lemma ReadFailureErrnos(y: System, result: int)
    requires |y.m.ios| == 1 && y.m.ctx.master && !y.m.ctx.ioFinish && result < 0
    ensures ReadFails(y, result).m.ctx.lastErrno != 0 && ReadFails(y, result).s == y.s
  {
    FailedRead(y.m, result);
  }

  lemma WriteFailureErrnos(y: System, i: nat, result: int)
    requires i < |y.s.ios| && !y.s.ctx.master && !y.s.ctx.ioFinish && result < y.s.ios[i].bytes
    ensures WriteFails(y, i, result).s.ctx.lastErrno != 0 && WriteFails(y, i, result).m == y.m
  {
    FailedWrite(y.s, i, result);
  }

  lemma WorkingErrnos(files: Files, names: seq<Name>, y: System, e: Event, z: System)
    requires Working(files, names, y) && Common(files, names, z) && !IOFault(e)
    ensures ErrnosFollow(y, e, z)
  {
    assert Common(files, names, y);
  }

  lemma StepErrnos(files: Files, names: seq<Name>, y: System, e: Event)
    requires Inv(files, names, y) && Enabled(files, y, e)
    ensures ErrnosFollow(y, e, Step(files, y, e))
  {
    if Hushed(files, names, y) {
      SilentIsStuck(files, y, e);
    } else if !Working(files, names, y) {
      HaltedErrnos(files, names, y, e);
    } else if !Fault(e) {
      WorkingStep(files, names, y, e);
      WorkingErrnos(files, names, y, e, Step(files, y, e));
    } else if IOFault(e) {
      FaultMeansStreaming(files, names, y, e);
      FaultErrnos(files, names, y, e);
    } else {
      CutStops(files, names, y, e);
      WorkingErrnos(files, names, y, e, Step(files, y, e));
    }
  }

  /** Nothing more is opened, copied or taken off the queue. */
  ghost predicate SameHistory(y: System, z: System)
  {
    z.openings == y.openings && z.log == y.log && z.m.ctx.taskQueue == y.m.ctx.taskQueue
  }

  lemma HaltedHistory(files: Files, names: seq<Name>, y: System, e: Event)
    requires Basics(files, names, y) && Halted(files, names, y) && Enabled(files, y, e)
    ensures SameHistory(y, Step(files, y, e))
  {
    match e
    case MasterOpened(_) =>
    case SlaveOpened(_) =>
    case MasterTakes =>
      assert Told(y.m, y.s);
      assert y.openings + [] == y.openings;
    case MasterRead(n) => ReadResult(files, y, n, true, true);
    case ReadRefused(n) => ReadResult(files, y, n, true, false);
    case ReadUnsent(n) => ReadResult(files, y, n, false, true);
    case ReadFailed(result) => FailedRead(y.m, result);
    case SlaveTakes =>
    case Applied(i) =>
    case Written(i) => HaltedWrites(files, names, y, i);
    case WriteFailed(i, result) =>
    case LateFailed(i, result) =>
    case BeginRefused =>
    case DataRefused =>
    case CheckRefused => NoCheck(files, names, y);
    case MasterOpenRefused =>
    case SlaveOpenRefused =>
    case MasterUnsent =>
    case SlaveUnsent =>
  }

  lemma FaultHistory(files: Files, names: seq<Name>, y: System, e: Event)
    requires Common(files, names, y) && Enabled(files, y, e) && IOFault(e)
    requires if e.BeginRefused? then Beginning(files, names, y) else Streaming(files, names, y)
    ensures SameHistory(y, Step(files, y, e))
  {
    match e
    case ReadRefused(n) => ReadResult(files, y, n, true, false);
    case ReadUnsent(n) => ReadResult(files, y, n, false, true);
    case ReadFailed(result) => FailedRead(y.m, result);
    case WriteFailed(i, result) =>
    case BeginRefused => assert y.openings + [] == y.openings;
    case DataRefused =>
  }

  /** The slave finishes its task behind an error or a refusal of file IO exactly by a failed or refused write. */
  ghost predicate ClosedFollow(y: System, e: Event, z: System)
  {
    z.s.closed <==> y.s.closed || e.WriteFailed? || e.DataRefused?
  }

  lemma HaltedClosed(files: Files, names: seq<Name>, y: System, e: Event)
    requires Basics(files, names, y) && Halted(files, names, y) && Enabled(files, y, e)
    ensures ClosedFollow(y, e, Step(files, y, e))
  {
    match e
    case SlaveOpened(_) =>
    case SlaveTakes => TakenClosed(files, names, y);
    case Written(i) => WrittenClosed(files, names, y, i);
    case WriteFailed(i, result) => FailedWrite(y.s, i, result);
    case LateFailed(i, result) => LateWrite(y.s, i, result);
    case DataRefused => RefusedClosed(y.s, y.m.out[0]);
    case CheckRefused => NoCheck(files, names, y);
    case _ =>
  }

  lemma RefusedClosed(s: End, msg: Msg)
    requires msg.Data?
    ensures OnMessage(s, msg, true, false).closed
  {
  }

  lemma TakenClosed(files: Files, names: seq<Name>, y: System)
    requires Basics(files, names, y) && Halted(files, names, y) && Enabled(files, y, SlaveTakes)
    ensures SlaveReceives(y, true).s.closed == y.s.closed
  {
    var msg := y.m.out[0];
    if BrokenOff(y.m, y.s, y.log) {
      BrokenTakes(y.s, msg, true);
    } else if msg.Data? {
      StarvedTakesData(Source(files, y), y.m, y.s, IO(msg.index, |msg.bytes|, msg.bytes, false));
    } else {
      StarvedTakesFinish(Source(files, y), y.m, y.s);
    }
  }

  lemma WrittenClosed(files: Files, names: seq<Name>, y: System, i: nat)
    requires Basics(files, names, y) && Halted(files, names, y) && i < |y.s.ios|
    ensures Writes(y, i).s.closed == y.s.closed
  {
    if Unharmed(files, y.s, y.log) && Starved(Source(files, y), y.m, y.s) {
      StarvedWrites(Source(files, y), y.m, y.s, i);
    } else {
      LateWrite(y.s, i, y.s.ios[i].bytes);
    }
  }

  /** The master has finished its task, or what makes it do so is on its way: the FINISH(1) of a failed
      read, or the FINISH(0) in answer to it. */
  ghost predicate Answered(m: End, s: End)
  {
    m.closed || s.out == [Finish(false)] || (m.out != [] && m.out[|m.out| - 1] == Finish(true))
  }

  lemma FaultClosed(files: Files, names: seq<Name>, y: System, e: Event)
    requires Common(files, names, y) && Enabled(files, y, e) && IOFault(e)
    requires if e.BeginRefused? then Beginning(files, names, y) else Streaming(files, names, y)
    ensures Step(files, y, e).s.closed <==> e.WriteFailed? || e.DataRefused?
  {
    match e
    case WriteFailed(i, result) => FailedWrite(y.s, i, result);
    case DataRefused => RefusedClosed(y.s, y.m.out[0]);
    case _ =>
  }

  lemma FaultAnswered(files: Files, names: seq<Name>, y: System, e: Event)
    requires Common(files, names, y) && Enabled(files, y, e) && IOFault(e) && !e.WriteFailed? && !e.DataRefused?
    requires if e.BeginRefused? then Beginning(files, names, y) else Streaming(files, names, y)
    ensures var z := Step(files, y, e); Answered(z.m, z.s) <==> e.ReadFailed? || e.BeginRefused?
  {
    match e
    case ReadRefused(n) => DroppedUnanswered(files, names, y, n, true);
    case ReadUnsent(n) => DroppedUnanswered(files, names, y, n, false);
    case ReadFailed(result) => FailedRead(y.m, result);
    case BeginRefused => BeginRefusedStops(files, names, y);
  }

  lemma DroppedUnanswered(files: Files, names: seq<Name>, y: System, n: nat, sent: bool)
    requires Common(files, names, y) && Streaming(files, names, y) && CanRead(files, y, n)
    ensures var z := MasterReads(files, y, n, sent, !sent); !Answered(z.m, z.s) && !z.s.closed
  {
    ReadResult(files, y, n, sent, !sent);
    var out := Advanced(y.m, Delivered(files, y, n), sent, !sent).out;
    assert out != [] ==> out[|out| - 1].Data?;
  }

  /** As long as the slave goes on, only a loss takes the answer away, and nothing brings it back. */
  lemma HaltedAnswered(files: Files, names: seq<Name>, y: System, e: Event)
    requires Basics(files, names, y) && Halted(files, names, y) && Enabled(files, y, e) && !Step(files, y, e).s.closed
    ensures !e.ReadRefused? && !e.ReadUnsent?
    ensures var z := Step(files, y, e); Answered(z.m, z.s) <==> Answered(y.m, y.s) && !Lost(e)
  {
    OnlyWindsUp(files, names, y, e);
    if e.Applied? || e.Written? || e.LateFailed? {
      CallbackAnswered(files, names, y, e);
    } else if e.MasterTakes? || e.SlaveTakes? {
      MessageAnswered(files, names, y, e);
    } else {
      LossAnswered(files, names, y, e);
    }
  }

  lemma CallbackAnswered(files: Files, names: seq<Name>, y: System, e: Event)
    requires Basics(files, names, y) && Halted(files, names, y) && Enabled(files, y, e) && !y.s.closed
    requires e.Applied? || e.Written? || e.LateFailed?
    ensures var z := Step(files, y, e); Answered(z.m, z.s) <==> Answered(y.m, y.s)
  {
    match e
    case Applied(i) =>
    case Written(i) => WrittenAnswered(files, names, y, i);
    case LateFailed(i, result) => LateAnswered(files, names, y, i, result);
  }

  lemma MessageAnswered(files: Files, names: seq<Name>, y: System, e: Event)
    requires Basics(files, names, y) && Halted(files, names, y) && Enabled(files, y, e) && !y.s.closed
    requires e.MasterTakes? || e.SlaveTakes?
    ensures var z := Step(files, y, e); Answered(z.m, z.s) <==> Answered(y.m, y.s)
  {
    match e
    case MasterTakes => AnswerTaken(files, names, y);
    case SlaveTakes => TakenAnswered(files, names, y);
  }

  lemma LossAnswered(files: Files, names: seq<Name>, y: System, e: Event)
    requires Basics(files, names, y) && Halted(files, names, y) && Enabled(files, y, e) && !y.s.closed
    requires e.MasterUnsent? || e.SlaveUnsent?
    ensures var z := Step(files, y, e); Answered(y.m, y.s) && !Answered(z.m, z.s)
  {
    match e
    case MasterUnsent => UnsentUnanswered(files, names, y);
    case SlaveUnsent => AnswerUnsent(files, names, y);
  }

  /** What can still happen as long as the slave goes on. */
  lemma OnlyWindsUp(files: Files, names: seq<Name>, y: System, e: Event)
    requires Basics(files, names, y) && Halted(files, names, y) && Enabled(files, y, e) && !Step(files, y, e).s.closed
    ensures !y.s.closed
    ensures e.MasterTakes? || e.SlaveTakes? || e.Applied? || e.Written? || e.LateFailed? || e.MasterUnsent? || e.SlaveUnsent?
  {
    HaltedClosed(files, names, y, e);
    HaltedStill(files, names, y);
    NoCheck(files, names, y);
  }

  lemma HaltedStill(files: Files, names: seq<Name>, y: System)
    requires Halted(files, names, y) && !y.s.closed
    ensures Unharmed(files, y.s, y.log) && y.m.ios == []
  {
  }

  lemma AnswerTaken(files: Files, names: seq<Name>, y: System)
    requires Basics(files, names, y) && Halted(files, names, y) && Enabled(files, y, MasterTakes)
    ensures Answered(y.m, y.s) && MasterReceives(y, true).m.closed
  {
    assert Told(y.m, y.s);
  }

  lemma LateAnswered(files: Files, names: seq<Name>, y: System, i: nat, result: int)
    requires Basics(files, names, y) && Halted(files, names, y) && Enabled(files, y, LateFailed(i, result)) && !y.s.closed
    ensures WriteFails(y, i, result).s.out == y.s.out
  {
    LateWrite(y.s, i, result);
  }

  lemma AnswerUnsent(files: Files, names: seq<Name>, y: System)
    requires Basics(files, names, y) && Halted(files, names, y) && Enabled(files, y, SlaveUnsent)
    ensures Answered(y.m, y.s) && !Answered(y.m, DropLast(y.s))
  {
    HaltedSlaveUnsent(files, names, y);
  }

  lemma UnsentUnanswered(files: Files, names: seq<Name>, y: System)
    requires Basics(files, names, y) && Halted(files, names, y) && Enabled(files, y, MasterUnsent) && !y.s.closed
    ensures Answered(y.m, y.s) && !Answered(DropLast(y.m), y.s)
  {
    assert !Told(y.m, y.s);
  }

  lemma TakenAnswered(files: Files, names: seq<Name>, y: System)
    requires Basics(files, names, y) && Halted(files, names, y) && Enabled(files, y, SlaveTakes) && !y.s.closed
    ensures var z := SlaveReceives(y, true); Answered(z.m, z.s) <==> Answered(y.m, y.s)
  {
    var msg := y.m.out[0];
    if msg.Data? {
      StarvedTakesData(Source(files, y), y.m, y.s, IO(msg.index, |msg.bytes|, msg.bytes, false));
    } else {
      StarvedTakesFinish(Source(files, y), y.m, y.s);
    }
  }

  lemma WrittenAnswered(files: Files, names: seq<Name>, y: System, i: nat)
    requires Basics(files, names, y) && Halted(files, names, y) && i < |y.s.ios| && !y.s.closed
    ensures var z := Writes(y, i); z.m == y.m && z.s.out == y.s.out
  {
    if Starved(Source(files, y), y.m, y.s) {
      StarvedWrites(Source(files, y), y.m, y.s, i);
    } else {
      LateWrite(y.s, i, y.s.ios[i].bytes);
    }
  }
}
