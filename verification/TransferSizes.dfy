/** The read size the two ends of FileTransfer agree on, over every run. */
module TransferSizes {
  import opened Bytes
  import opened Transfer
  import opened FileTransfer
  import opened TransferFaults
  import opened TransferRuns

  /** What the master asks for when one of the ends, or neither, wants the small buffers. */
  function Agreed(stable: bool): nat
  {
    if stable then 49152 else 418611
  }

  /** The flag of a BEGIN on its way is the slave's, and says that huge buffers are fine. */
  ghost predicate FlagsOk(s: End, slaveStable: bool)
  {
    s.ctx.isStableBuf == slaveStable && forall k :: 0 <= k < |s.out| && s.out[k].Begin? ==> s.out[k].hugeBuf == !slaveStable
  }

  /** Every read in progress asks for the agreed size, and no piece is larger. */
  ghost predicate ReadsOk(m: End, masterStable: bool, stable: bool)
  {
    && m.ctx.isStableBuf == masterStable && (m.ios != [] ==> m.ctx.isStableBufSize == stable)
    && (forall k :: 0 <= k < |m.ios| ==> m.ios[k].bytes == Agreed(stable))
    && (forall k :: 0 <= k < |m.out| && m.out[k].Data? ==> |m.out[k].bytes| <= Agreed(stable))
  }

  ghost predicate SizesOk(y: System, masterStable: bool, slaveStable: bool)
  {
    FlagsOk(y.s, slaveStable) && ReadsOk(y.m, masterStable, masterStable || slaveStable)
  }

  // ------------------------------------------------------------ the slave's side

  lemma OpenKeepsFlags(s: End, ok: bool, size: nat, b: bool)
    requires FlagsOk(s, b) && s.opens > 0
    ensures FlagsOk(OnFileOpen(s, ok, size), b)
  {
  }

  lemma MessageKeepsFlags(s: End, msg: Msg, accepted: bool, granted: bool, b: bool)
    requires FlagsOk(s, b)
    ensures FlagsOk(OnMessage(s, msg, accepted, granted), b)
  {
  }

  /** A callback at the slave sends at most a FINISH. */
  lemma CallbackKeepsFlags(s: End, i: nat, result: int, b: bool)
    requires FlagsOk(s, b) && i < |s.ios| && !s.ctx.master
    ensures FlagsOk(OnFileIO(s, i, result, [], true, true), b)
  {
    ReactKeepsFlags(s, s.ios[i], result, b);
    FinishKeepsFlags(React(s, s.ios[i], result, [], true, true).e, b);
  }

  lemma ReactKeepsFlags(s: End, io: IO, result: int, b: bool)
    requires FlagsOk(s, b) && !s.ctx.master
    ensures FlagsOk(React(s, io, result, [], true, true).e, b)
  {
  }

  lemma FinishKeepsFlags(s: End, b: bool)
    requires FlagsOk(s, b)
    ensures FlagsOk(IOFinished(s), b)
  {
  }

  // ------------------------------------------------------------ the master's side

  lemma OpenKeepsReads(m: End, ok: bool, size: nat, a: bool, stable: bool)
    requires ReadsOk(m, a, stable) && m.opens > 0
    ensures ReadsOk(OnFileOpen(m, ok, size), a, stable)
  {
  }

  /** BEGIN settles the size: small buffers as soon as one end wants them. */
  lemma BeginKeepsReads(m: End, hugeBuf: bool, granted: bool, a: bool, b: bool)
    requires ReadsOk(m, a, a || b) && hugeBuf == !b
    ensures ReadsOk(OnMessage(m, Begin(hugeBuf), true, granted), a, a || b)
  {
  }

  lemma FinishKeepsReads(m: End, more: bool, granted: bool, a: bool, stable: bool)
    requires ReadsOk(m, a, stable)
    ensures ReadsOk(OnMessage(m, Finish(more), true, granted), a, stable)
  {
  }

  lemma ReadKeepsReads(m: End, data: seq<byte>, sent: bool, granted: bool, a: bool, stable: bool)
    requires ReadsOk(m, a, stable) && m.ios != [] && |data| <= m.ios[0].bytes
    ensures ReadsOk(Advanced(m, data, sent, granted), a, stable)
  {
    var t := Advanced(m, data, sent, granted);
    assert t.ctx.isStableBuf == m.ctx.isStableBuf && t.ctx.isStableBufSize == m.ctx.isStableBufSize;
    if sent {
      assert t.out == m.out + [Data(m.ctx.indexIO, data)];
    } else {
      assert t.out == m.out;
    }
    assert t.ios == [] || t.ios == [IO(t.ctx.indexIO, Agreed(stable), [], false)];
  }

  lemma DropKeepsReads(m: End, out: seq<Msg>, a: bool, stable: bool)
    requires ReadsOk(m, a, stable) && forall k :: 0 <= k < |out| ==> out[k] in m.out
    ensures ReadsOk(m.(out := out), a, stable)
  {
    forall k | 0 <= k < |out| && out[k].Data? ensures |out[k].bytes| <= Agreed(stable) {
      assert out[k] in m.out;
    }
  }

  // ------------------------------------------------------------ every step

  lemma ReadingNow(files: Files, names: seq<Name>, y: System)
    requires Inv(files, names, y) && y.m.ios != []
    ensures |y.m.ios| == 1 && y.m.ctx.master && !y.m.ctx.ioFinish && y.m.ctx.lastErrno == 0 && !y.m.ctx.closeNotify
  {
  }

  lemma ForTheMaster(files: Files, names: seq<Name>, y: System)
    requires Inv(files, names, y) && y.s.out != [] && !y.s.closed
    ensures y.s.out[0].Begin? || y.s.out[0].Finish?
  {
  }

  lemma TheSlave(files: Files, names: seq<Name>, y: System)
    requires Inv(files, names, y)
    ensures !y.s.ctx.master
  {
  }

  lemma ReadKeepsSizes(files: Files, names: seq<Name>, y: System, n: nat, sent: bool, granted: bool, a: bool, b: bool)
    requires Inv(files, names, y) && CanRead(files, y, n) && SizesOk(y, a, b)
    ensures SizesOk(MasterReads(files, y, n, sent, granted), a, b)
  {
    ReadingNow(files, names, y);
    ReadResult(files, y, n, sent, granted);
    ReadKeepsReads(y.m, Delivered(files, y, n), sent, granted, a, a || b);
  }

  lemma MasterTakesKeepsSizes(files: Files, names: seq<Name>, y: System, granted: bool, a: bool, b: bool)
    requires Inv(files, names, y) && y.s.out != [] && !y.s.closed && SizesOk(y, a, b)
    ensures SizesOk(MasterReceives(y, granted), a, b)
  {
    ForTheMaster(files, names, y);
    if y.s.out[0].Begin? {
      BeginKeepsReads(y.m, y.s.out[0].hugeBuf, granted, a, b);
    } else {
      FinishKeepsReads(y.m, y.s.out[0].more, granted, a, a || b);
    }
  }

  lemma SlaveTakesKeepsSizes(y: System, accepted: bool, granted: bool, a: bool, b: bool)
    requires y.m.out != [] && SizesOk(y, a, b)
    ensures SizesOk(y.(s := OnMessage(y.s, y.m.out[0], accepted, granted), m := y.m.(out := y.m.out[1..])), a, b)
  {
    MessageKeepsFlags(y.s, y.m.out[0], accepted, granted, b);
    DropKeepsReads(y.m, y.m.out[1..], a, a || b);
  }

  lemma ReadFailsKeepsSizes(files: Files, names: seq<Name>, y: System, result: int, a: bool, b: bool)
    requires Inv(files, names, y) && y.m.ios != [] && result < 0 && SizesOk(y, a, b)
    ensures SizesOk(ReadFails(y, result), a, b)
  {
    ReadingNow(files, names, y);
    FailedRead(y.m, result);
  }

  lemma MasterKeepsSizes(files: Files, names: seq<Name>, y: System, e: Event, a: bool, b: bool)
    requires Inv(files, names, y) && Enabled(files, y, e) && SizesOk(y, a, b)
    requires e.MasterOpened? || e.MasterTakes? || e.BeginRefused? || e.MasterRead? || e.ReadRefused? || e.ReadUnsent? || e.ReadFailed?
    ensures SizesOk(Step(files, y, e), a, b)
  {
    match e
    case MasterOpened(ok) => OpenKeepsReads(y.m, ok, |Source(files, y)|, a, a || b);
    case MasterTakes => MasterTakesKeepsSizes(files, names, y, true, a, b);
    case BeginRefused => MasterTakesKeepsSizes(files, names, y, false, a, b);
    case MasterRead(n) => ReadKeepsSizes(files, names, y, n, true, true, a, b);
    case ReadRefused(n) => ReadKeepsSizes(files, names, y, n, true, false, a, b);
    case ReadUnsent(n) => ReadKeepsSizes(files, names, y, n, false, true, a, b);
    case ReadFailed(result) => ReadFailsKeepsSizes(files, names, y, result, a, b);
  }

  lemma SlaveKeepsSizes(files: Files, names: seq<Name>, y: System, e: Event, a: bool, b: bool)
    requires Inv(files, names, y) && Enabled(files, y, e) && SizesOk(y, a, b)
    requires e.SlaveTakes? || e.DataRefused? || e.CheckRefused? || e.SlaveOpened? || e.Written? || e.WriteFailed? || e.LateFailed?
    ensures SizesOk(Step(files, y, e), a, b)
  {
    TheSlave(files, names, y);
    match e
    case SlaveTakes => SlaveTakesKeepsSizes(y, true, true, a, b);
    case DataRefused => SlaveTakesKeepsSizes(y, true, false, a, b);
    case CheckRefused => SlaveTakesKeepsSizes(y, false, true, a, b);
    case SlaveOpened(ok) => OpenKeepsFlags(y.s, ok, 0, b);
    case Written(i) => CallbackKeepsFlags(y.s, i, y.s.ios[i].bytes, b);
    case WriteFailed(i, result) => CallbackKeepsFlags(y.s, i, result, b);
    case LateFailed(i, result) => CallbackKeepsFlags(y.s, i, result, b);
  }

  lemma StepKeepsSizes(files: Files, names: seq<Name>, y: System, e: Event, a: bool, b: bool)
    requires Inv(files, names, y) && Enabled(files, y, e) && SizesOk(y, a, b)
    ensures SizesOk(Step(files, y, e), a, b)
  {
    if e.MasterOpened? || e.MasterTakes? || e.BeginRefused? || e.MasterRead? || e.ReadRefused? || e.ReadUnsent? || e.ReadFailed? {
      MasterKeepsSizes(files, names, y, e, a, b);
    } else if e.Applied? || Lost(e) {
      LossKeepsSizes(files, y, e, a, b);
    } else {
      SlaveKeepsSizes(files, names, y, e, a, b);
    }
  }

  lemma LossKeepsSizes(files: Files, y: System, e: Event, a: bool, b: bool)
    requires Enabled(files, y, e) && SizesOk(y, a, b) && (e.Applied? || Lost(e))
    ensures SizesOk(Step(files, y, e), a, b)
  {
    match e
    case Applied(i) =>
    case MasterOpenRefused =>
    case SlaveOpenRefused =>
    case MasterUnsent => DropKeepsReads(y.m, DropLast(y.m).out, a, a || b);
    case SlaveUnsent =>
  }

  lemma {:induction false} RunKeepsSizes(files: Files, names: seq<Name>, y: System, es: seq<Event>, z: System, a: bool, b: bool)
    requires Inv(files, names, y) && Run(files, y, es, z) && SizesOk(y, a, b)
    ensures SizesOk(z, a, b)
    decreases |es|
  {
    if es != [] {
      StepKeepsInv(files, names, y, es[0]);
      StepKeepsSizes(files, names, y, es[0], a, b);
      RunKeepsSizes(files, names, Step(files, y, es[0]), es[1..], z, a, b);
    }
  }

  /** In every run, from what the two ends are set to and nothing else: if either wants the stable buffer,
      every read in progress at the master asks for 49152 bytes and no piece on its way is larger; if neither
      does, for 418611. A BEGIN on its way carries what the slave is set to. */
  lemma ReadSizeAgreed(files: Files, names: seq<Name>, isDir: bool, init: System, es: seq<Event>, y: System)
    requires Init(files, names, isDir, init) && Run(files, init, es, y)
    ensures var stable := init.m.ctx.isStableBuf || init.s.ctx.isStableBuf;
      && (forall k :: 0 <= k < |y.m.ios| ==> y.m.ios[k].bytes == if stable then 49152 else 418611)
      && (forall k :: 0 <= k < |y.m.out| && y.m.out[k].Data? ==> |y.m.out[k].bytes| <= if stable then 49152 else 418611)
      && (forall k :: 0 <= k < |y.s.out| && y.s.out[k].Begin? ==> y.s.out[k].hugeBuf == !init.s.ctx.isStableBuf)
  {
    InitInv(files, names, isDir, init);
    RunKeepsSizes(files, names, init, es, y, init.m.ctx.isStableBuf, init.s.ctx.isStableBuf);
  }
}
