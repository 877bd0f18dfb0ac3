/** The file descriptors of the two ends of FileTransfer, and the errors they record, over every run. */
module TransferFiles {
  import opened Transfer
  import opened FileTransfer
  import opened TransferFaults
  import opened TransferProgress
  import opened TransferRuns
  import opened TransferSizes

  /** Which end has its file open in which stage: the slave from BEGIN to the end of the data, the master from
      CHECK until it has read everything. */
  ghost predicate Fds(y: System)
  {
    && (y.s.ctx.isFdOpen <==> Stage(y) == 3 || Stage(y) == 4)
    && (Stage(y) == 7 || y.zeros == 1 ==> !y.m.ctx.isFdOpen)
    && (4 <= Stage(y) <= 6 ==> y.m.ctx.isFdOpen)
    && (Stage(y) == 3 ==> (y.m.ctx.isFdOpen <==> !y.m.ctx.ioFinish))
  }

  lemma OpeningFds(files: Files, names: seq<Name>, y: System, ok: bool)
    requires Common(files, names, y) && Opening(files, names, y) && Fds(y)
    ensures Fds(MasterOpens(files, y, ok))
  {
    if ok {
      OpenedFds(files, names, y);
    } else {
      OpenFailedFds(files, names, y);
    }
  }

  lemma OpenedFds(files: Files, names: seq<Name>, y: System)
    requires Common(files, names, y) && Opening(files, names, y) && Fds(y)
    ensures Fds(MasterOpens(files, y, true))
  {
  }

  lemma OpenFailedFds(files: Files, names: seq<Name>, y: System)
    requires Common(files, names, y) && Opening(files, names, y) && Fds(y)
    ensures Fds(MasterOpens(files, y, false))
  {
    MasterOpenFailedKeeps(files, names, y);
  }

  lemma CheckFds(files: Files, names: seq<Name>, y: System)
    requires Common(files, names, y) && Checking(files, names, y) && Fds(y)
    ensures Fds(SlaveReceives(y, true))
  {
  }

  lemma SlaveOpeningFds(files: Files, names: seq<Name>, y: System, ok: bool)
    requires Common(files, names, y) && SlaveOpening(files, names, y) && Fds(y)
    ensures Fds(SlaveOpens(y, ok))
  {
  }

  lemma BeginFds(files: Files, names: seq<Name>, y: System)
    requires Common(files, names, y) && Beginning(files, names, y) && Fds(y)
    ensures Fds(MasterReceives(y, true))
  {
  }

  lemma FinishFds(files: Files, names: seq<Name>, y: System)
    requires Common(files, names, y) && Finishing(files, names, y) && Fds(y)
    ensures Fds(MasterReceives(y, true))
  {
  }

  lemma EndFds(files: Files, names: seq<Name>, y: System)
    requires Common(files, names, y) && Ending(files, names, y) && Fds(y)
    ensures Fds(SlaveReceives(y, true))
  {
  }

  /** In the data phase the stage stays, and only the last read closes the master's file. */
  lemma ReadFds(files: Files, names: seq<Name>, y: System, n: nat)
    requires Common(files, names, y) && Streaming(files, names, y) && Fds(y) && Enabled(files, y, MasterRead(n))
    ensures Fds(MasterReads(files, y, n, true, true))
  {
    MasterReadKeeps(files, names, y, n);
    StreamingStage(files, names, y);
    StreamingStage(files, names, MasterReads(files, y, n, true, true));
    ReadResult(files, y, n, true, true);
  }

  lemma TakeFds(files: Files, names: seq<Name>, y: System)
    requires Common(files, names, y) && Streaming(files, names, y) && Fds(y) && y.m.out != []
    ensures Fds(SlaveReceives(y, true))
  {
    DataTakenKeeps(files, names, y);
    StreamingStage(files, names, y);
    StreamingStage(files, names, SlaveReceives(y, true));
  }

  lemma ApplyFds(files: Files, names: seq<Name>, y: System, i: nat)
    requires Common(files, names, y) && Streaming(files, names, y) && Fds(y) && i < |y.s.ios|
    ensures Fds(Applies(y, i))
  {
    AppliedKeeps(files, names, y, i);
    StreamingStage(files, names, y);
    StreamingStage(files, names, Applies(y, i));
  }

  lemma WriteFds(files: Files, names: seq<Name>, y: System, i: nat)
    requires Common(files, names, y) && Streaming(files, names, y) && Fds(y) && Enabled(files, y, Written(i))
    ensures Fds(Writes(y, i))
  {
    StreamingStage(files, names, y);
    GoodWrite(y.s, i);
    if Completes(y.s, i) {
      LastWrittenKeeps(files, names, y, i);
      FinishingStage(files, names, Writes(y, i));
    } else {
      WrittenKeeps(files, names, y, i);
      StreamingStage(files, names, Writes(y, i));
    }
  }

  lemma FinishingStage(files: Files, names: seq<Name>, y: System)
    requires Finishing(files, names, y)
    ensures Stage(y) == 2 && y.zeros == 0
  {
  }

  lemma StreamingFds(files: Files, names: seq<Name>, y: System, e: Event)
    requires Common(files, names, y) && Streaming(files, names, y) && Fds(y) && Enabled(files, y, e) && !Fault(e)
    ensures Fds(Step(files, y, e))
  {
    match e
    case MasterRead(n) => ReadFds(files, names, y, n);
    case SlaveTakes => TakeFds(files, names, y);
    case Applied(i) => ApplyFds(files, names, y, i);
    case Written(i) => WriteFds(files, names, y, i);
  }

  lemma MasterFds(files: Files, names: seq<Name>, y: System, e: Event)
    requires Working(files, names, y) && Fds(y) && Enabled(files, y, e) && (e.MasterOpened? || e.MasterTakes?)
    ensures Fds(Step(files, y, e))
  {
    match e
    case MasterOpened(ok) => OpeningFds(files, names, y, ok);
    case MasterTakes =>
      if Beginning(files, names, y) {
        BeginFds(files, names, y);
      } else {
        FinishFds(files, names, y);
      }
  }

  lemma SlaveFds(files: Files, names: seq<Name>, y: System, e: Event)
    requires Working(files, names, y) && !Streaming(files, names, y) && Fds(y) && Enabled(files, y, e) && (e.SlaveOpened? || e.SlaveTakes?)
    ensures Fds(Step(files, y, e))
  {
    match e
    case SlaveOpened(ok) => SlaveOpeningFds(files, names, y, ok);
    case SlaveTakes =>
      if Checking(files, names, y) {
        CheckFds(files, names, y);
      } else {
        EndFds(files, names, y);
      }
  }

  lemma StepFds(files: Files, names: seq<Name>, y: System, e: Event)
    requires Working(files, names, y) && Fds(y) && Enabled(files, y, e) && !Fault(e)
    ensures Fds(Step(files, y, e))
  {
    if Streaming(files, names, y) {
      StreamingFds(files, names, y, e);
    } else {
      OnlyStages(files, names, y, e);
      if e.MasterOpened? || e.MasterTakes? {
        MasterFds(files, names, y, e);
      } else {
        SlaveFds(files, names, y, e);
      }
    }
  }

  lemma {:induction false} RunFds(files: Files, names: seq<Name>, y: System, es: seq<Event>, z: System)
    requires Working(files, names, y) && Fds(y) && Run(files, y, es, z) && NoFault(es)
    ensures Fds(z)
    decreases |es|
  {
    if es != [] {
      Unfold(es);
      StepFds(files, names, y, es[0]);
      WorkingStep(files, names, y, es[0]);
      RunFds(files, names, Step(files, y, es[0]), es[1..], z);
    }
  }

  lemma InitFds(files: Files, names: seq<Name>, isDir: bool, init: System)
    requires Init(files, names, isDir, init) && !init.m.ctx.isFdOpen && !init.s.ctx.isFdOpen
    ensures Working(files, names, init) && Fds(init)
  {
    InitInv(files, names, isDir, init);
  }

  /** In every run without an error, a refusal or a loss: the slave has its file open exactly between the open
      and the last write, the master closes a file before it opens the next, and when the transfer has come to
      its summary neither has one open. */
  lemma FilesClosed(files: Files, names: seq<Name>, isDir: bool, init: System, es: seq<Event>, y: System)
    requires Init(files, names, isDir, init) && !init.m.ctx.isFdOpen && !init.s.ctx.isFdOpen
    requires Run(files, init, es, y) && NoFault(es)
    ensures y.m.opens > 0 ==> !y.m.ctx.isFdOpen && !y.s.ctx.isFdOpen
    ensures y.zeros == 1 ==> !y.m.ctx.isFdOpen && !y.s.ctx.isFdOpen
    ensures y.s.ctx.isFdOpen <==> Beginning(files, names, y) || Streaming(files, names, y)
  {
    InitFds(files, names, isDir, init);
    RunFds(files, names, init, es, y);
    RunFaults(files, names, init, es, y);
    StageOfPhase(files, names, y);
  }

  lemma StageOfPhase(files: Files, names: seq<Name>, y: System)
    requires Working(files, names, y)
    ensures y.m.opens > 0 ==> Stage(y) == 7
    ensures y.zeros == 1 ==> Stage(y) <= 1
    ensures Stage(y) == 3 || Stage(y) == 4 <==> Beginning(files, names, y) || Streaming(files, names, y)
  {
    if Streaming(files, names, y) {
      StreamingStage(files, names, y);
    }
  }

  // ------------------------------------------------------------ recorded errors

  /** The number recorded for a failed read or write is the one the system reported; for a short write, which has
      none, it is the fixed one. */
  lemma ErrnoRecorded(files: Files, names: seq<Name>, isDir: bool, es: seq<Event>, y: System, e: Event)
    requires Reached(files, names, isDir, es, y) && Enabled(files, y, e)
    ensures e.ReadFailed? ==> Step(files, y, e).m.ctx.lastErrno == -e.result
    ensures e.WriteFailed? ==> Step(files, y, e).s.ctx.lastErrno == if e.result < 0 then -e.result else 5
  {
    ReachedInv(files, names, isDir, es, y);
    if e.ReadFailed? {
      ReadingNow(files, names, y);
      FailedRead(y.m, e.result);
    } else if e.WriteFailed? {
      FailedWrite(y.s, e.i, e.result);
    }
  }

  /** A failed file is counted with the bytes that were read or written before the failure. */
  lemma FailedCounted(files: Files, names: seq<Name>, isDir: bool, es: seq<Event>, y: System, e: Event)
    requires Reached(files, names, isDir, es, y) && Enabled(files, y, e)
    ensures e.ReadFailed? ==>
      var m := Step(files, y, e).m; m.ctx.fileCnt == 1 && m.ctx.dirSize == y.m.ctx.dirSize + y.m.ctx.indexIO
    ensures e.WriteFailed? ==>
      var s := Step(files, y, e).s;
      s.ctx.fileCnt == y.s.ctx.fileCnt + 1 && s.ctx.dirSize == y.s.ctx.dirSize + y.s.ctx.indexIO
  {
    ReachedInv(files, names, isDir, es, y);
    if e.ReadFailed? {
      ReadingNow(files, names, y);
      FailedRead(y.m, e.result);
      PhaseFacts(files, names, y);
    } else if e.WriteFailed? {
      FailedWrite(y.s, e.i, e.result);
    }
  }

  // ------------------------------------------------------------ limits of a request, and what a name says

  /** A file request starts exactly when the file is not finished and it fits the buffer less its prefix. */
  lemma StartsIff(c: Ctx, bytes: int)
    ensures MayStart(c, bytes) <==> !c.ioFinish && 0 <= bytes <= if c.isStableBufSize then 62400 else 524224
  {
  }

  /** An open that succeeds starts the context afresh, whatever the file before it left there. */
  lemma OpenResets(e: End, size: nat)
    requires e.opens > 0
    ensures var c := OnFileOpen(e, true, size).ctx;
      c.lastErrno == 0 && c.indexIO == 0 && !c.ioFinish && !c.closeNotify && c.isFdOpen && c.fileCnt == e.ctx.fileCnt && c.dirSize == e.ctx.dirSize
  {
  }

  /** CHECK makes its receiver a slave, with the name and the size it carries. */
  lemma CheckMakesSlave(e: End, name: Name, size: nat, accepted: bool, granted: bool)
    ensures var t := OnMessage(e, Check(name, size), accepted, granted);
      !t.ctx.master && t.ctx.name == name && t.ctx.fileSize == size && t.opens == e.opens + (if accepted then 1 else 0)
  {
  }

  /** A slave takes part in a directory transfer from the first name with a separator of either kind on. */
  lemma CheckMakesDir(e: End, name: Name, size: nat, accepted: bool, granted: bool)
    ensures OnMessage(e, Check(name, size), accepted, granted).ctx.isDir <==>
      e.ctx.isDir || exists i :: 0 <= i < |name| && (name[i] == '/' || name[i] == '\\')
  {
    if HasSeparator(name) {
      var c := if '/' in name then '/' else '\\';
      var i :| 0 <= i < |name| && name[i] == c;
    }
  }
}
