/** Every step of the protocol of FileTransfer, errors, refusals and losses included, brings the transfer
    nearer to its end, and some step is possible until then. */
module TransferProgress {
  import opened Bytes
  import opened Transfer
  import opened FileTransfer
  import opened TransferFaults

  function Unapplied(ios: seq<IO>): nat
  {
    if ios == [] then 0 else (if ios[0].applied then 0 else 1) + Unapplied(ios[1..])
  }

  lemma {:induction false} UnappliedJoin(a: seq<IO>, b: seq<IO>)
    ensures Unapplied(a + b) == Unapplied(a) + Unapplied(b)
  {
    if a == [] {
      assert a + b == b;
    } else {
      assert (a + b)[1..] == a[1..] + b;
      UnappliedJoin(a[1..], b);
    }
  }

  lemma UnappliedWithout(ios: seq<IO>, i: nat)
    requires i < |ios|
    ensures Unapplied(ios) == Unapplied(Without(ios, i)) + if ios[i].applied then 0 else 1
  {
    assert ios == ios[..i] + ([ios[i]] + ios[i + 1..]);
    UnappliedJoin(ios[..i], [ios[i]] + ios[i + 1..]);
    UnappliedJoin(ios[..i], ios[i + 1..]);
    assert ([ios[i]] + ios[i + 1..])[1..] == ios[i + 1..];
  }

  lemma UnappliedApplied(ios: seq<IO>, i: nat)
    requires i < |ios| && !ios[i].applied
    ensures Unapplied(ios[i := ios[i].(applied := true)]) < Unapplied(ios)
  {
    var after := ios[i := ios[i].(applied := true)];
    UnappliedWithout(ios, i);
    UnappliedWithout(after, i);
    assert Without(ios, i) == Without(after, i);
  }

  /** How far the current file is from its end. */
  function Stage(y: System): nat
  {
    if y.m.opens > 0 then 7
    else if y.m.out != [] && y.m.out[0].Check? then 6
    else if y.s.opens > 0 then 5
    else if y.s.out != [] && y.s.out[0].Begin? then 4
    else if y.s.out != [] && y.s.out[0] == Finish(true) then 2
    else if Finish(false) in y.s.out[..Min(|y.s.out|, 1)] + y.m.out[..Min(|y.m.out|, 1)] then 1
    else if y.zeros == 1 || y.s.ctx.ioFinish || |y.log| >= |y.openings| then 0
    else 3
  }

  function Unread(files: Files, y: System): nat
  {
    var size := |Source(files, y)|;
    (if y.m.ctx.indexIO < size then size - y.m.ctx.indexIO else 0) + if y.m.ctx.ioFinish then 0 else 1
  }

  function Unwritten(y: System): nat
  {
    |y.s.ios| + Unapplied(y.s.ios)
  }

  /** The files left, the stage of the current one, and within the data phase what is to be read, to be
      taken and to be written, in lexicographic order. */
  ghost predicate Nearer(files: Files, z: System, y: System)
  {
    var a, b := |z.m.ctx.taskQueue|, |y.m.ctx.taskQueue|;
    || a < b
    || (a == b && Stage(z) < Stage(y))
    || (a == b && Stage(z) == Stage(y) && NearerData(files, z, y))
  }

  ghost predicate NearerData(files: Files, z: System, y: System)
  {
    || Unread(files, z) < Unread(files, y)
    || (Unread(files, z) == Unread(files, y) && |z.m.out| < |y.m.out|)
    || (Unread(files, z) == Unread(files, y) && |z.m.out| == |y.m.out| && Unwritten(z) < Unwritten(y))
  }

  lemma ReadNearer(files: Files, names: seq<Name>, y: System, n: nat)
    requires Common(files, names, y) && Streaming(files, names, y) && Enabled(files, y, MasterRead(n))
    ensures Nearer(files, MasterReads(files, y, n, true, true), y)
  {
    ReadResult(files, y, n, true, true);
    AdvancedNearer(files, y, Delivered(files, y, n));
  }

  lemma AdvancedNearer(files: Files, y: System, data: seq<byte>)
    requires Stage(y) == 3 && (y.m.out == [] || y.m.out[0].Data?)
    requires !y.m.ctx.ioFinish && y.m.ctx.fileSize == |Source(files, y)|
    requires y.m.ctx.indexIO + |data| <= |Source(files, y)|
    ensures Nearer(files, y.(m := Advanced(y.m, data, true, true)), y)
  {
  }

  lemma TakenNearer(files: Files, names: seq<Name>, y: System)
    requires Common(files, names, y) && Streaming(files, names, y) && y.m.out != []
    ensures Nearer(files, SlaveReceives(y, true), y)
  {
  }

  lemma AppliedNearer(files: Files, names: seq<Name>, y: System, i: nat)
    requires Common(files, names, y) && Streaming(files, names, y) && Enabled(files, y, Applied(i))
    ensures Nearer(files, Applies(y, i), y)
  {
    UnappliedApplied(y.s.ios, i);
  }

  lemma WrittenNearer(files: Files, names: seq<Name>, y: System, i: nat)
    requires Common(files, names, y) && Streaming(files, names, y) && Enabled(files, y, Written(i))
    ensures Nearer(files, Writes(y, i), y)
  {
    GoodWrite(y.s, i);
    UnappliedWithout(y.s.ios, i);
  }

  lemma OpeningNearer(files: Files, names: seq<Name>, y: System, ok: bool)
    requires Common(files, names, y) && Opening(files, names, y)
    ensures Nearer(files, MasterOpens(files, y, ok), y)
  {
  }

  lemma SlaveOpeningNearer(files: Files, names: seq<Name>, y: System, ok: bool)
    requires Common(files, names, y) && SlaveOpening(files, names, y)
    ensures Nearer(files, SlaveOpens(y, ok), y)
  {
  }

  lemma MasterTakesNearer(files: Files, names: seq<Name>, y: System)
    requires Common(files, names, y) && (Beginning(files, names, y) || Finishing(files, names, y))
    ensures Nearer(files, MasterReceives(y, true), y)
  {
  }

  lemma SlaveTakesNearer(files: Files, names: seq<Name>, y: System)
    requires Common(files, names, y) && (Checking(files, names, y) || Ending(files, names, y))
    ensures Nearer(files, SlaveReceives(y, true), y)
  {
  }

  /** Outside the data phase every step ends a stage. */
  lemma StageNearer(files: Files, names: seq<Name>, y: System, e: Event)
    requires Working(files, names, y) && !Streaming(files, names, y) && Enabled(files, y, e) && !Fault(e)
    ensures Nearer(files, Step(files, y, e), y)
  {
    if e.MasterOpened? || e.MasterTakes? {
      MasterStageNearer(files, names, y, e);
    } else {
      OnlyStages(files, names, y, e);
      SlaveStageNearer(files, names, y, e);
    }
  }

  lemma OnlyStages(files: Files, names: seq<Name>, y: System, e: Event)
    requires Working(files, names, y) && !Streaming(files, names, y) && Enabled(files, y, e) && !Fault(e)
    ensures e.MasterOpened? || e.MasterTakes? || e.SlaveOpened? || e.SlaveTakes?
  {
    assert Idle(y);
  }

  lemma MasterStageNearer(files: Files, names: seq<Name>, y: System, e: Event)
    requires Working(files, names, y) && Enabled(files, y, e) && (e.MasterOpened? || e.MasterTakes?)
    ensures Nearer(files, Step(files, y, e), y)
  {
    match e
    case MasterOpened(ok) => OpeningNearer(files, names, y, ok);
    case MasterTakes => MasterTakesNearer(files, names, y);
  }

  lemma SlaveStageNearer(files: Files, names: seq<Name>, y: System, e: Event)
    requires Working(files, names, y) && !Streaming(files, names, y) && Enabled(files, y, e) && (e.SlaveOpened? || e.SlaveTakes?)
    ensures Nearer(files, Step(files, y, e), y)
  {
    match e
    case SlaveOpened(ok) => SlaveOpeningNearer(files, names, y, ok);
    case SlaveTakes => SlaveTakesNearer(files, names, y);
  }

  lemma HaltedStage(files: Files, names: seq<Name>, y: System)
    requires Basics(files, names, y) && Halted(files, names, y)
    ensures BrokenOff(y.m, y.s, y.log) ==> Stage(y) == 2
    ensures Unharmed(files, y.s, y.log) && Starved(Source(files, y), y.m, y.s) ==> Stage(y) == 3
    ensures Unharmed(files, y.s, y.log) && Told(y.m, y.s) ==> Stage(y) == |y.s.out|
    ensures BrokenOff(y.m, y.s, y.log) || Unharmed(files, y.s, y.log)
  {
    if y.m.out != [] {
      assert y.m.out[0].Data? || y.m.out[0] == Finish(true);
    }
  }

  lemma StoppedReadNearer(files: Files, y: System, data: seq<byte>, sent: bool, granted: bool)
    requires !y.m.ctx.ioFinish && y.m.ctx.indexIO + |data| <= |Source(files, y)| && (data == [] ==> y.m.ctx.indexIO == |Source(files, y)|)
    ensures Unread(files, y.(m := Advanced(y.m, data, sent, granted))) < Unread(files, y)
  {
  }

  lemma HaltedTakenNearer(files: Files, names: seq<Name>, y: System)
    requires Basics(files, names, y) && Halted(files, names, y) && Enabled(files, y, SlaveTakes)
    ensures Nearer(files, SlaveReceives(y, true), y)
  {
    HaltedTaken(files, names, y);
    HaltedStage(files, names, y);
    HaltedStage(files, names, SlaveReceives(y, true));
    TakenErrno(files, names, y);
  }

  lemma HaltedReadNearer(files: Files, names: seq<Name>, y: System, n: nat, sent: bool, granted: bool)
    requires Basics(files, names, y) && Halted(files, names, y) && CanRead(files, y, n)
    ensures Nearer(files, MasterReads(files, y, n, sent, granted), y)
  {
    var z := MasterReads(files, y, n, sent, granted);
    HaltedReads(files, names, y, n, sent, granted);
    HaltedStage(files, names, y);
    HaltedStage(files, names, z);
    ReadLessUnread(files, y, n, sent, granted);
    ReadResult(files, y, n, sent, granted);
  }

  lemma HaltedReadFailsNearer(files: Files, names: seq<Name>, y: System, result: int)
    requires Basics(files, names, y) && Halted(files, names, y) && |y.m.ios| > 0 && result < 0
    ensures Nearer(files, ReadFails(y, result), y)
  {
    var z := ReadFails(y, result);
    HaltedReadFails(files, names, y, result);
    HaltedStage(files, names, y);
    HaltedStage(files, names, z);
    FailedRead(y.m, result);
  }

  lemma HaltedAppliesNearer(files: Files, names: seq<Name>, y: System, i: nat)
    requires Basics(files, names, y) && Halted(files, names, y) && Enabled(files, y, Applied(i))
    ensures Nearer(files, Applies(y, i), y)
  {
    UnappliedApplied(y.s.ios, i);
  }

  lemma HaltedWritesNearer(files: Files, names: seq<Name>, y: System, i: nat)
    requires Basics(files, names, y) && Halted(files, names, y) && Enabled(files, y, Written(i))
    ensures Nearer(files, Writes(y, i), y)
  {
    HaltedWrites(files, names, y, i);
    HaltedStage(files, names, y);
    HaltedStage(files, names, Writes(y, i));
    WrittenErrno(files, names, y, i);
    SlaveCallback(y.s, i, y.s.ios[i].bytes);
    UnappliedWithout(y.s.ios, i);
  }

  lemma HaltedWriteFailsNearer(files: Files, names: seq<Name>, y: System, i: nat, result: int)
    requires Basics(files, names, y) && Halted(files, names, y) && Enabled(files, y, WriteFailed(i, result))
    ensures Nearer(files, WriteFails(y, i, result), y)
  {
    HaltedWriteFails(files, names, y, i, result);
    HaltedStage(files, names, y);
    HaltedStage(files, names, WriteFails(y, i, result));
    FailedWrite(y.s, i, result);
  }

  lemma LateFailsNearer(files: Files, names: seq<Name>, y: System, i: nat, result: int)
    requires Basics(files, names, y) && Halted(files, names, y) && Enabled(files, y, LateFailed(i, result))
    ensures Nearer(files, WriteFails(y, i, result), y)
  {
    LateWriteFails(files, names, y, i, result);
    HaltedStage(files, names, y);
    HaltedStage(files, names, WriteFails(y, i, result));
    UnappliedWithout(y.s.ios, i);
    LateWrite(y.s, i, result);
  }

  lemma UnsentNearer(files: Files, names: seq<Name>, y: System, e: Event)
    requires Basics(files, names, y) && Halted(files, names, y) && Enabled(files, y, e) && (e.MasterUnsent? || e.SlaveUnsent?)
    ensures Nearer(files, Step(files, y, e), y)
  {
    HaltedStage(files, names, y);
    HaltedStep(files, names, y, e);
    HaltedStage(files, names, Step(files, y, e));
    if e.MasterUnsent? {
      assert !Told(y.m, y.s);
    } else {
      HaltedSlaveUnsent(files, names, y);
    }
  }

  lemma HaltedAnswerNearer(files: Files, names: seq<Name>, y: System)
    requires Basics(files, names, y) && Halted(files, names, y) && Enabled(files, y, MasterTakes)
    ensures Nearer(files, MasterReceives(y, true), y)
  {
    assert Told(y.m, y.s);
    HaltedStage(files, names, y);
  }

  /** After an error or a refusal of file IO, too, every step brings the end nearer. */
  lemma HaltedNearer(files: Files, names: seq<Name>, y: System, e: Event)
    requires Basics(files, names, y) && Halted(files, names, y) && Enabled(files, y, e)
    ensures Nearer(files, Step(files, y, e), y)
  {
    match e
    case MasterOpened(_) =>
    case SlaveOpened(_) =>
    case MasterTakes => HaltedAnswerNearer(files, names, y);
    case MasterRead(n) => HaltedReadNearer(files, names, y, n, true, true);
    case ReadRefused(n) => HaltedReadNearer(files, names, y, n, true, false);
    case ReadUnsent(n) => HaltedReadNearer(files, names, y, n, false, true);
    case ReadFailed(result) => HaltedReadFailsNearer(files, names, y, result);
    case SlaveTakes => HaltedTakenNearer(files, names, y);
    case Applied(i) => HaltedAppliesNearer(files, names, y, i);
    case Written(i) => HaltedWritesNearer(files, names, y, i);
    case WriteFailed(i, result) => HaltedWriteFailsNearer(files, names, y, i, result);
    case LateFailed(i, result) => LateFailsNearer(files, names, y, i, result);
    case BeginRefused =>
    case DataRefused => HaltedRefusesNearer(files, names, y);
    case CheckRefused => NoCheck(files, names, y);
    case MasterOpenRefused =>
    case SlaveOpenRefused =>
    case MasterUnsent => UnsentNearer(files, names, y, e);
    case SlaveUnsent => UnsentNearer(files, names, y, e);
  }

  lemma HaltedRefusesNearer(files: Files, names: seq<Name>, y: System)
    requires Basics(files, names, y) && Halted(files, names, y) && Enabled(files, y, DataRefused)
    ensures Nearer(files, SlaveReceives(y, false), y)
  {
    HaltedRefuses(files, names, y);
    HaltedStage(files, names, y);
    HaltedStage(files, names, SlaveReceives(y, false));
    RefusedErrno(y.s, y.m.out[0]);
  }

  lemma SlaveCallback(s: End, i: nat, result: int)
    requires i < |s.ios| && !s.ctx.master
    ensures OnFileIO(s, i, result, [], true, true).ios == Without(s.ios, i)
  {
    assert Without(s.ios, i) + [] == Without(s.ios, i);
  }

  lemma ReadLessUnread(files: Files, y: System, n: nat, sent: bool, granted: bool)
    requires MasterHalf(Source(files, y), y.m) && y.m.ctx.master && CanRead(files, y, n)
    ensures Unread(files, MasterReads(files, y, n, sent, granted)) < Unread(files, y)
  {
    ReadResult(files, y, n, sent, granted);
    StoppedReadNearer(files, y, Delivered(files, y, n), sent, granted);
  }

  /** A loss ends a stage at once. */
  lemma CutNearer(files: Files, names: seq<Name>, y: System, e: Event)
    requires Working(files, names, y) && Enabled(files, y, e) && (Lost(e) || e.CheckRefused?)
    ensures Nearer(files, Step(files, y, e), y)
  {
    CutStops(files, names, y, e);
    CutStage(files, names, y, e);
    CutSame(files, y, e);
    StageFalls(files, names, Step(files, y, e), y);
  }

  lemma CutSame(files: Files, y: System, e: Event)
    requires Enabled(files, y, e) && (Lost(e) || e.CheckRefused?)
    ensures Step(files, y, e).log == y.log && Step(files, y, e).m.ctx == y.m.ctx
  {
  }

  lemma StageFalls(files: Files, names: seq<Name>, z: System, y: System)
    requires Hushed(files, names, z) && z.log == y.log && z.m.ctx == y.m.ctx
    requires Stage(y) > if Unresolved(names, y) then 3 else 0
    ensures Nearer(files, z, y)
  {
    HushedStage(files, names, z);
  }

  /** A file without an outcome is then before its data phase. */
  lemma CutStage(files: Files, names: seq<Name>, y: System, e: Event)
    requires Working(files, names, y) && Enabled(files, y, e) && (Lost(e) || e.CheckRefused?)
    ensures Stage(y) > if Unresolved(names, y) then 3 else 0
  {
    match e
    case CheckRefused =>
    case MasterOpenRefused =>
    case SlaveOpenRefused => assert SlaveOpening(files, names, y);
    case MasterUnsent => MasterUnsentStage(files, names, y);
    case SlaveUnsent => assert Beginning(files, names, y) || Finishing(files, names, y);
  }

  lemma MasterUnsentStage(files: Files, names: seq<Name>, y: System)
    requires Working(files, names, y) && Enabled(files, y, MasterUnsent)
    ensures Stage(y) > if Unresolved(names, y) then 3 else 0
  {
    assert !Streaming(files, names, y);
    assert Checking(files, names, y) || Ending(files, names, y);
  }

  lemma HushedStage(files: Files, names: seq<Name>, y: System)
    requires Hushed(files, names, y)
    ensures Stage(y) <= if Unresolved(names, y) then 3 else 0
  {
  }

  lemma StreamingStage(files: Files, names: seq<Name>, y: System)
    requires Basics(files, names, y) && Streaming(files, names, y)
    ensures Stage(y) == 3
  {
  }

  lemma DroppedNearer(files: Files, names: seq<Name>, y: System, n: nat, sent: bool)
    requires Common(files, names, y) && Streaming(files, names, y) && CanRead(files, y, n)
    requires sent ==> 0 < n && y.m.ctx.indexIO + n < y.m.ctx.fileSize
    ensures Nearer(files, MasterReads(files, y, n, sent, !sent), y)
  {
    ReadStops(files, names, y, n, sent);
    HaltedStage(files, names, MasterReads(files, y, n, sent, !sent));
    StreamingStage(files, names, y);
    StreamingHalf(files, names, y);
    ReadLessUnread(files, y, n, sent, !sent);
  }

  lemma ReadFailureNearer(files: Files, names: seq<Name>, y: System, result: int)
    requires Common(files, names, y) && Streaming(files, names, y) && |y.m.ios| > 0 && result < 0
    ensures Nearer(files, ReadFails(y, result), y)
  {
    ReadFailureStops(files, names, y, result);
    HaltedStage(files, names, ReadFails(y, result));
    StreamingStage(files, names, y);
    FailedRead(y.m, result);
  }

  lemma WriteFailureNearer(files: Files, names: seq<Name>, y: System, i: nat, result: int)
    requires Common(files, names, y) && Streaming(files, names, y) && Enabled(files, y, WriteFailed(i, result))
    ensures Nearer(files, WriteFails(y, i, result), y)
  {
    FailedWrite(y.s, i, result);
    StreamingStage(files, names, y);
  }

  lemma BeginRefusedNearer(files: Files, names: seq<Name>, y: System)
    requires Common(files, names, y) && Beginning(files, names, y)
    ensures Nearer(files, MasterReceives(y, false), y)
  {
  }

  lemma DataRefusedNearer(files: Files, names: seq<Name>, y: System)
    requires Common(files, names, y) && Streaming(files, names, y) && Enabled(files, y, DataRefused)
    ensures Nearer(files, SlaveReceives(y, false), y)
  {
    DataRefusedStops(files, names, y);
    StreamingRefuses(Source(files, y), y.m, y.s);
    HaltedStage(files, names, SlaveReceives(y, false));
    StreamingStage(files, names, y);
  }

  lemma FaultNearer(files: Files, names: seq<Name>, y: System, e: Event)
    requires Common(files, names, y) && Enabled(files, y, e) && IOFault(e)
    requires if e.BeginRefused? then Beginning(files, names, y) else Streaming(files, names, y)
    ensures Nearer(files, Step(files, y, e), y)
  {
    match e
    case ReadRefused(n) => DroppedNearer(files, names, y, n, true);
    case ReadUnsent(n) => DroppedNearer(files, names, y, n, false);
    case ReadFailed(result) => ReadFailureNearer(files, names, y, result);
    case WriteFailed(i, result) => WriteFailureNearer(files, names, y, i, result);
    case BeginRefused => BeginRefusedNearer(files, names, y);
    case DataRefused => DataRefusedNearer(files, names, y);
  }

  lemma StreamingNearer(files: Files, names: seq<Name>, y: System, e: Event)
    requires Common(files, names, y) && Streaming(files, names, y) && Enabled(files, y, e) && !Fault(e)
    ensures Nearer(files, Step(files, y, e), y)
  {
    match e
    case MasterRead(n) => ReadNearer(files, names, y, n);
    case SlaveTakes => TakenNearer(files, names, y);
    case Applied(i) => AppliedNearer(files, names, y, i);
    case Written(i) => WrittenNearer(files, names, y, i);
  }

  /** Every step of every run, whatever goes wrong, brings the end nearer: no run goes on for ever. */
  lemma StepNearer(files: Files, names: seq<Name>, y: System, e: Event)
    requires Inv(files, names, y) && Enabled(files, y, e)
    ensures Nearer(files, Step(files, y, e), y)
  {
    if Hushed(files, names, y) {
      SilentIsStuck(files, y, e);
    } else if !Working(files, names, y) {
      HaltedNearer(files, names, y, e);
    } else if IOFault(e) {
      FaultMeansStreaming(files, names, y, e);
      FaultNearer(files, names, y, e);
    } else if Fault(e) {
      CutNearer(files, names, y, e);
    } else if Streaming(files, names, y) {
      StreamingNearer(files, names, y, e);
    } else {
      StageNearer(files, names, y, e);
    }
  }

  /** The transfer is over: with the summary, or for a single file that would not open, without. */
  ghost predicate Over(files: Files, names: seq<Name>, y: System)
  {
    Common(files, names, y) && (Ended(files, names, y) || Aborted(files, names, y))
  }

  /** After an error, a refusal or a loss, nothing can happen any more. */
  ghost predicate Standstill(files: Files, names: seq<Name>, y: System)
  {
    || Hushed(files, names, y)
    || (Halted(files, names, y) && Idle(y) && y.m.out == [] && (y.s.closed || y.s.out == []))
  }

  lemma NextRead(files: Files, y: System) returns (e: Event)
    requires Reading(Source(files, y), y.m)
    ensures Enabled(files, y, e) && e.MasterRead?
  {
    var rest := |Source(files, y)| - y.m.ctx.indexIO;
    e := MasterRead(if rest < 0 then 0 else if rest < y.m.ios[0].bytes then rest else y.m.ios[0].bytes);
  }

  lemma NextInData(files: Files, names: seq<Name>, y: System) returns (e: Event)
    requires Common(files, names, y) && Streaming(files, names, y)
    ensures Enabled(files, y, e) && !Fault(e)
  {
    if Reading(Source(files, y), y.m) {
      e := NextRead(files, y);
    } else if y.m.out != [] {
      e := SlaveTakes;
    } else {
      assert SumOut(y.m.out) == 0 && SumIO([]) == 0;
      assert y.s.ios != [];
      e := if y.s.ios[0].applied then Written(0) else Applied(0);
    }
  }

  lemma NextWorking(files: Files, names: seq<Name>, y: System) returns (e: Event)
    requires Working(files, names, y) && !Over(files, names, y)
    ensures Enabled(files, y, e) && !Fault(e)
  {
    if Streaming(files, names, y) {
      e := NextInData(files, names, y);
    } else if y.m.opens > 0 {
      e := MasterOpened(true);
    } else if y.s.opens > 0 {
      e := SlaveOpened(true);
    } else {
      e := if y.m.out != [] then SlaveTakes else MasterTakes;
    }
  }

  lemma NextHalted(files: Files, names: seq<Name>, y: System) returns (e: Event)
    requires Basics(files, names, y) && Halted(files, names, y) && !Standstill(files, names, y)
    ensures Enabled(files, y, e) && !Fault(e)
  {
    if y.m.ios != [] {
      e := NextRead(files, y);
    } else if y.s.ios != [] {
      e := if y.s.ios[0].applied then Written(0) else Applied(0);
    } else {
      e := if y.m.out != [] then SlaveTakes else MasterTakes;
    }
  }

  /** No run gets stuck before its end, or before a standstill after an error, a refusal or a loss. */
  lemma NextStep(files: Files, names: seq<Name>, y: System) returns (e: Event)
    requires Inv(files, names, y) && !Over(files, names, y) && !Standstill(files, names, y)
    ensures Enabled(files, y, e) && !Fault(e)
  {
    if Working(files, names, y) {
      e := NextWorking(files, names, y);
    } else {
      e := NextHalted(files, names, y);
    }
  }
}
