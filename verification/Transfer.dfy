/** One end of a file transfer (src/common/transfer.cpp and src/common/file.cpp): the transfer context
    and what each callback and command does to it. Buffers and the reference count are added by
    TransferTask, the other end and the network by FileTransfer. */
module Transfer {
  import opened Bytes

  type Name = string

  /** The messages between the two ends; Finish carries its one-byte payload as a flag. */
  datatype Msg =
    | Check(name: Name, size: nat)
    | Begin(hugeBuf: bool)
    | Data(index: nat, bytes: seq<byte>)
    | Finish(more: bool)

  /** The fields of CtxFile that decide what happens next, with the task's isStableBuf. closeReqSubmitted
      is left out: it is set and cleared again within one call. */
  datatype Ctx = Ctx(
    master: bool, isDir: bool, isStableBuf: bool, isStableBufSize: bool, name: Name, taskQueue: seq<Name>,
    fileSize: nat, indexIO: nat, lastErrno: nat,
    isFdOpen: bool, ioFinish: bool, closeNotify: bool,
    fileCnt: nat, dirSize: nat)

  /** A file request in progress: a read of `bytes` bytes, or a write of `data`. The kernel sets
      `applied` when the bytes of a write are in the file. */
  datatype IO = IO(index: nat, bytes: nat, data: seq<byte>, applied: bool)

  /** One end: its context, open requests and file requests in progress, messages handed to SendToAnother
      and not yet taken by the other end, and whether TaskFinish was called. */
  datatype End = End(ctx: Ctx, opens: nat, ios: seq<IO>, out: seq<Msg>, closed: bool)

  const ENOSPC_OR_EIO: nat := 5

  const READ_MAX: nat := 511 * 1024 * 8 / 10          // GetMaxBufSize() times 0.8
  const READ_MAX_STABLE: nat := 60 * 1024 * 8 / 10
  const BULK_MAX: nat := 512 * 1024 - 64              // GetUsbffsBulkSize() less the payload prefix
  const BULK_MAX_STABLE: nat := 61 * 1024 - 64

  function BufMax(c: Ctx): nat { if c.isStableBufSize then BULK_MAX_STABLE else BULK_MAX }

  function ReadSize(c: Ctx): nat { if c.isStableBufSize then READ_MAX_STABLE else READ_MAX }

  function Send(e: End, m: Msg): End { e.(out := e.out + [m]) }

  predicate MayStart(c: Ctx, bytes: int)
  {
    0 <= bytes <= BufMax(c) && !c.ioFinish
  }

  /** SimpleFileIO; `granted` says that the buffers were allocated and libuv took the request. */
  function StartIO(e: End, index: nat, bytes: nat, data: seq<byte>, granted: bool): End
  {
    if MayStart(e.ctx, bytes) && granted then e.(ios := e.ios + [IO(index, bytes, data, false)]) else e
  }

  function ResetCtx(c: Ctx): Ctx
  {
    c.(closeNotify := false, indexIO := 0, lastErrno := 0, ioFinish := false)
  }

  function Count(c: Ctx, n: nat): Ctx { c.(indexIO := c.indexIO + n) }

  function MarkFailed(c: Ctx, result: int): Ctx { c.(lastErrno := Errno(result), closeNotify := true) }

  function MarkComplete(c: Ctx): Ctx { c.(closeNotify := true) }

  function Shut(c: Ctx): Ctx { c.(ioFinish := true, isFdOpen := false) }

  function Tally(c: Ctx): Ctx { c.(fileCnt := c.fileCnt + 1, dirSize := c.dirSize + c.indexIO) }

  function WhenTransferFinish(e: End): End
  {
    Send(e.(ctx := Tally(e.ctx)), Finish(true))
  }

  /** libuv did not take the open just requested: there will be no callback for it. The return value of
      uv_fs_open is only logged, so nothing else changes. */
  function OpenRefused(e: End): End
    requires e.opens > 0
  {
    e.(opens := e.opens - 1)
  }

  /** FINISH(1) is followed by the open of a next file. */
  predicate OpensNext(c: Ctx) { c.isDir && c.taskQueue != [] }

  /** CMD_FILE_FINISH: next file of the queue, or the end of the transfer, or the summary. */
  function OnFinish(e: End, more: bool): End
  {
    if !more then e.(closed := true)
    else
      var c := e.ctx.(isFdOpen := false);
      if OpensNext(c) then
        var n := |c.taskQueue| - 1;
        e.(ctx := c.(name := c.taskQueue[n], taskQueue := c.taskQueue[..n]), opens := e.opens + 1)
      else Send(e.(ctx := c.(ioFinish := true)), Finish(false))
  }

  /** OnFileOpen: `size` is what fstat reports to the master. */
  function OnFileOpen(e: End, ok: bool, size: nat): End
    requires e.opens > 0
  {
    var e := e.(opens := e.opens - 1);
    if !ok then
      if !e.ctx.isDir then e.(closed := true)
      else if e.ctx.master then OnFinish(e, true)
      else Send(e, Finish(true))
    else
      var c := ResetCtx(e.ctx).(isFdOpen := true);
      if c.master then Send(e.(ctx := c.(fileSize := size)), Check(c.name, size))
      else Send(e.(ctx := c), Begin(!c.isStableBuf))
  }

  /** ProcressFileIOFinish: the file is closed, and its end reported if it is to be. */
  function IOFinished(e: End): End
  {
    var e := e.(ctx := Shut(e.ctx));
    if e.ctx.lastErrno != 0 || e.ctx.closeNotify then WhenTransferFinish(e) else e
  }

  function Without(ios: seq<IO>, i: nat): seq<IO>
    requires i < |ios|
  {
    ios[..i] + ios[i + 1..]
  }

  /** A read or a write that failed: negative result, or a short write. */
  predicate Failed(c: Ctx, io: IO, result: int)
  {
    result < 0 || (!c.master && result != io.bytes)
  }

  function Errno(result: int): nat
  {
    if result < 0 then -result else ENOSPC_OR_EIO
  }

  /** The next read, if SimpleFileIO starts it. */
  function NextRead(c: Ctx, granted: bool): seq<IO>
  {
    if MayStart(c, ReadSize(c)) && granted then [IO(c.indexIO, ReadSize(c), [], false)] else []
  }

  /** What ProcressFileIO leaves: the end, the requests it started, and whether the file is finished. */
  datatype Reaction = Reaction(e: End, started: seq<IO>, finished: bool)

  /** ProcressFileIO for request `io`. `data` is what a read delivered, `sent` whether SendIOPayload
      succeeded and `granted` whether a further read was accepted. */
  function React(e: End, io: IO, result: int, data: seq<byte>, sent: bool, granted: bool): Reaction
    requires result >= 0 && e.ctx.master ==> result == |data|
  {
    if e.ctx.ioFinish then Reaction(e, [], true)
    else if Failed(e.ctx, io, result) then
      Reaction(e.(ctx := MarkFailed(e.ctx, result), closed := e.closed || !e.ctx.master),
               [], true)
    else Counted(e.(ctx := Count(e.ctx, result)), result, data, sent, granted)
  }

  /** The successful case, with the bytes already counted. */
  function Counted(e: End, result: nat, data: seq<byte>, sent: bool, granted: bool): Reaction
    requires result <= e.ctx.indexIO
  {
    if e.ctx.master then AfterRead(e, result, data, sent, granted)
    else if e.ctx.indexIO >= e.ctx.fileSize || result == 0 then
      Reaction(e.(ctx := MarkComplete(e.ctx)), [], true)
    else Reaction(e, [], false)
  }

  /** ProcressFileIORead: send the piece, then read on or finish. */
  function AfterRead(e: End, result: nat, data: seq<byte>, sent: bool, granted: bool): Reaction
    requires result <= e.ctx.indexIO
  {
    if !sent then Reaction(e, [], true)
    else
      var e := Send(e, Data(e.ctx.indexIO - result, data));
      if result == 0 || e.ctx.indexIO >= e.ctx.fileSize then Reaction(e, [], true)
      else Reaction(e, NextRead(e.ctx, granted), false)
  }

  /** OnFileIO for request `i`. */
  function OnFileIO(e: End, i: nat, result: int, data: seq<byte>, sent: bool, granted: bool): End
    requires i < |e.ios| && (result >= 0 && e.ctx.master ==> result == |data|)
  {
    var r := React(e, e.ios[i], result, data, sent, granted);
    (if r.finished then IOFinished(r.e) else r.e).(ios := Without(e.ios, i) + r.started)
  }

  predicate HasSeparator(name: Name)
  {
    '/' in name || '\\' in name
  }

  /** CommandDispatch; `accepted` says that SlaveCheck took the file. A false return of the source ends
      in TaskFinish. */
  function OnMessage(e: End, m: Msg, accepted: bool, granted: bool): End
  {
    match m
    case Check(name, size) =>
      var c := e.ctx.(fileSize := size, master := false, name := name, isDir := e.ctx.isDir || HasSeparator(name));
      if accepted then e.(ctx := c, opens := e.opens + 1) else e.(ctx := c, closed := true)
    case Begin(hugeBuf) =>
      var e := e.(ctx := e.ctx.(isStableBufSize := e.ctx.isStableBuf || !hugeBuf));
      if MayStart(e.ctx, ReadSize(e.ctx)) && granted then StartIO(e, e.ctx.indexIO, ReadSize(e.ctx), [], granted)
      else e.(closed := true)
    case Data(index, bytes) =>
      if MayStart(e.ctx, |bytes|) && granted then StartIO(e, index, |bytes|, bytes, granted)
      else e.(ctx := e.ctx.(isFdOpen := false), closed := true)
    case Finish(more) => OnFinish(e, more)
  }
}
