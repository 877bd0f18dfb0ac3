/** The file transfer protocol: a master that reads, a slave that writes, and a FIFO link in each
    direction. Read sizes, the moment each write reaches the file, the order of the write callbacks and
    the outcome of every open, read, write, message and request are arbitrary. */
module FileTransfer {
  import opened Bytes
  import opened Transfer

  type Files = map<Name, seq<byte>>

  datatype Outcome = MasterFailed | SlaveFailed | Copied

  datatype Entry = Entry(name: Name, outcome: Outcome)

  /** The two ends, the slave's files, and a history: which files the master opened, how each ended, and
      how many FINISH(0) it sent. */
  datatype System = System(m: End, s: End, disk: Files, openings: seq<Name>, log: seq<Entry>, zeros: nat)

  datatype Event =
    | MasterOpened(ok: bool)
    | MasterTakes
    | MasterRead(n: nat)
    | ReadRefused(n: nat)                  // the piece was sent, the request for the next read refused
    | ReadUnsent(n: nat)                   // SendIOPayload failed
    | ReadFailed(result: int)
    | SlaveTakes
    | SlaveOpened(ok: bool)
    | Applied(i: nat)
    | Written(i: nat)
    | WriteFailed(i: nat, result: int)     // with an error, or short
    | LateFailed(i: nat, result: int)      // the same, after the slave has closed the file
    | BeginRefused                         // the request for the first read refused
    | DataRefused                          // the request for a write refused
    | CheckRefused                         // SlaveCheck turned the file down
    | MasterOpenRefused                    // libuv did not take the request for an open
    | SlaveOpenRefused
    | MasterUnsent                         // SendToAnother failed for the last message handed to it
    | SlaveUnsent

  /** pwrite: the file grows, with zeros in any gap. */
  function WriteAt(f: seq<byte>, index: nat, data: seq<byte>): (r: seq<byte>)
    ensures |r| == if data == [] || index + |data| <= |f| then |f| else index + |data|
    ensures forall p :: index <= p < index + |data| ==> r[p] == data[p - index]
    ensures forall p :: 0 <= p < |f| && !(index <= p < index + |data|) ==> r[p] == f[p]
  {
    if data == [] then f
    else
      var n := if index + |data| <= |f| then |f| else index + |data|;
      seq(n, p requires 0 <= p < n =>
        if index <= p < index + |data| then data[p - index] else if p < |f| then f[p] else 0)
  }

  function Content(fs: Files, name: Name): seq<byte>
  {
    if name in fs then fs[name] else []
  }

  /** A read returns at least one byte unless it is at the end of the file. */
  predicate CanRead(files: Files, y: System, n: nat)
  {
    && |y.m.ios| > 0 && n <= y.m.ios[0].bytes
    && (var rest := |Content(files, y.m.ctx.name)| - y.m.ios[0].index; if rest <= 0 then n == 0 else 0 < n <= rest)
  }

  /** What may happen next. What an end sends after TaskFinish is not taken: the close of the channel goes
      ahead of it. Nobody looks at the result of the request for an open or of a control message, so that
      its failure is an event of its own, after which the end that made it is as if it had succeeded; an
      unsent Data is ReadUnsent. */
  predicate Enabled(files: Files, y: System, e: Event)
  {
    match e
    case MasterOpened(_) => y.m.opens > 0
    case MasterTakes => y.s.out != [] && !y.s.closed
    case MasterRead(n) => CanRead(files, y, n)
    case ReadRefused(n) => CanRead(files, y, n) && 0 < n && y.m.ctx.indexIO + n < y.m.ctx.fileSize
    case ReadUnsent(n) => CanRead(files, y, n)
    case ReadFailed(result) => |y.m.ios| > 0 && result < 0
    case SlaveTakes => y.m.out != [] && !y.m.closed
    case SlaveOpened(_) => y.s.opens > 0
    case Applied(i) => i < |y.s.ios| && !y.s.ios[i].applied
    case Written(i) => i < |y.s.ios| && y.s.ios[i].applied && !y.s.ctx.master
    case WriteFailed(i, result) => CanFail(y, i, result) && !y.s.ctx.ioFinish
    case LateFailed(i, result) => CanFail(y, i, result) && y.s.ctx.ioFinish
    case BeginRefused => y.s.out != [] && !y.s.closed && y.s.out[0].Begin?
    case DataRefused => y.m.out != [] && !y.m.closed && y.m.out[0].Data?
    case CheckRefused => y.m.out != [] && !y.m.closed && y.m.out[0].Check?
    case MasterOpenRefused => y.m.opens > 0
    case SlaveOpenRefused => y.s.opens > 0
    case MasterUnsent => y.m.out != [] && !y.m.closed && !y.m.out[|y.m.out| - 1].Data?
    case SlaveUnsent => y.s.out != [] && !y.s.closed
  }

  predicate CanFail(y: System, i: nat, result: int)
  {
    i < |y.s.ios| && !y.s.ios[i].applied && !y.s.ctx.master && result < y.s.ios[i].bytes
  }

  /** The events that are an error or a refusal of file IO. */
  predicate IOFault(e: Event)
  {
    e.ReadRefused? || e.ReadUnsent? || e.ReadFailed? || e.WriteFailed? || e.LateFailed? || e.BeginRefused? || e.DataRefused?
  }

  /** The events in which a request for an open or a control message gets lost. */
  predicate Lost(e: Event)
  {
    e.MasterOpenRefused? || e.SlaveOpenRefused? || e.MasterUnsent? || e.SlaveUnsent?
  }

  /** Everything that goes wrong but an open that fails. */
  predicate Fault(e: Event)
  {
    IOFault(e) || Lost(e) || e.CheckRefused?
  }

  function Zeros01(before: End, after: End): nat
  {
    if |after.out| > |before.out| && after.out[|after.out| - 1] == Finish(false) then 1 else 0
  }

  /** The file whose open TransferNext has just requested, if any. */
  function NewlyOpened(before: End, after: End): seq<Name>
  {
    if |after.ctx.taskQueue| < |before.ctx.taskQueue| then [after.ctx.name] else []
  }

  function MasterOpens(files: Files, y: System, ok: bool): System
    requires y.m.opens > 0
  {
    var m := OnFileOpen(y.m, ok, |Content(files, y.m.ctx.name)|);
    y.(m := m, openings := y.openings + NewlyOpened(y.m, m), zeros := y.zeros + Zeros01(y.m, m),
       log := if ok then y.log else y.log + [Entry(y.m.ctx.name, MasterFailed)])
  }

  function MasterReceives(y: System, granted: bool): System
    requires y.s.out != []
  {
    var m := OnMessage(y.m, y.s.out[0], true, granted);
    y.(m := m, s := y.s.(out := y.s.out[1..]), openings := y.openings + NewlyOpened(y.m, m), zeros := y.zeros + Zeros01(y.m, m))
  }

  /** The bytes a read of `n` bytes at `at` delivers. */
  function ReadAt(f: seq<byte>, at: nat, n: nat): (r: seq<byte>)
    requires n == 0 || at + n <= |f|
    ensures |r| == n
  {
    if n == 0 then [] else f[at..at + n]
  }

  function MasterReads(files: Files, y: System, n: nat, sent: bool, granted: bool): System
    requires CanRead(files, y, n)
  {
    y.(m := OnFileIO(y.m, 0, n, ReadAt(Content(files, y.m.ctx.name), y.m.ios[0].index, n), sent, granted))
  }

  function ReadFails(y: System, result: int): System
    requires |y.m.ios| > 0 && result < 0
  {
    y.(m := OnFileIO(y.m, 0, result, [], true, true))
  }

  function SlaveReceives(y: System, granted: bool): System
    requires y.m.out != []
  {
    y.(s := OnMessage(y.s, y.m.out[0], true, granted), m := y.m.(out := y.m.out[1..]))
  }

  /** Opening for writing truncates the file or creates it. */
  function SlaveOpens(y: System, ok: bool): System
    requires y.s.opens > 0
  {
    y.(s := OnFileOpen(y.s, ok, 0),
       disk := if ok then y.disk[y.s.ctx.name := []] else y.disk,
       log := if ok then y.log else y.log + [Entry(y.s.ctx.name, SlaveFailed)])
  }

  function Applies(y: System, i: nat): System
    requires i < |y.s.ios|
  {
    var io := y.s.ios[i];
    y.(s := y.s.(ios := y.s.ios[i := io.(applied := true)]),
       disk := y.disk[y.s.ctx.name := WriteAt(Content(y.disk, y.s.ctx.name), io.index, io.data)])
  }

  function Writes(y: System, i: nat): System
    requires i < |y.s.ios| && !y.s.ctx.master
  {
    var s := OnFileIO(y.s, i, y.s.ios[i].bytes, [], true, true);
    var copied := s.ctx.fileCnt > y.s.ctx.fileCnt && s.ctx.lastErrno == 0;
    y.(s := s, log := if copied then y.log + [Entry(y.s.ctx.name, Copied)] else y.log)
  }

  /** A short write leaves its first bytes in the file. */
  function WriteFails(y: System, i: nat, result: int): System
    requires i < |y.s.ios| && !y.s.ctx.master
  {
    var io := y.s.ios[i];
    var landed := if 0 <= result <= |io.data| then io.data[..result] else [];
    y.(s := OnFileIO(y.s, i, result, [], true, true),
       disk := y.disk[y.s.ctx.name := WriteAt(Content(y.disk, y.s.ctx.name), io.index, landed)])
  }

  function SlaveTurnsDown(y: System): System
    requires y.m.out != []
  {
    y.(s := OnMessage(y.s, y.m.out[0], false, true), m := y.m.(out := y.m.out[1..]))
  }

  function DropLast(e: End): End
    requires e.out != []
  {
    e.(out := e.out[..|e.out| - 1])
  }

  function Step(files: Files, y: System, e: Event): System
    requires Enabled(files, y, e)
  {
    match e
    case MasterOpened(ok) => MasterOpens(files, y, ok)
    case MasterTakes => MasterReceives(y, true)
    case MasterRead(n) => MasterReads(files, y, n, true, true)
    case ReadRefused(n) => MasterReads(files, y, n, true, false)
    case ReadUnsent(n) => MasterReads(files, y, n, false, true)
    case ReadFailed(result) => ReadFails(y, result)
    case SlaveTakes => SlaveReceives(y, true)
    case SlaveOpened(ok) => SlaveOpens(y, ok)
    case Applied(i) => Applies(y, i)
    case Written(i) => Writes(y, i)
    case WriteFailed(i, result) => WriteFails(y, i, result)
    case LateFailed(i, result) => WriteFails(y, i, result)
    case BeginRefused => MasterReceives(y, false)
    case DataRefused => SlaveReceives(y, false)
    case CheckRefused => SlaveTurnsDown(y)
    case MasterOpenRefused => y.(m := OpenRefused(y.m))
    case SlaveOpenRefused => y.(s := OpenRefused(y.s))
    case MasterUnsent => y.(m := DropLast(y.m))
    case SlaveUnsent => y.(s := DropLast(y.s))
  }

  // ------------------------------------------------------------ the invariant

  function SumOut(ms: seq<Msg>): nat
  {
    if ms == [] then 0 else (if ms[0].Data? then |ms[0].bytes| else 0) + SumOut(ms[1..])
  }

  function SumIO(ios: seq<IO>): nat
  {
    if ios == [] then 0 else |ios[0].data| + SumIO(ios[1..])
  }

  function SumCopied(files: Files, log: seq<Entry>): nat
  {
    if log == [] then 0
    else
      var last := log[|log| - 1];
      SumCopied(files, log[..|log| - 1]) + if last.outcome.Copied? then |Content(files, last.name)| else 0
  }

  function CountCopied(log: seq<Entry>): nat
  {
    if log == [] then 0
    else CountCopied(log[..|log| - 1]) + if log[|log| - 1].outcome.Copied? then 1 else 0
  }

  /** `bytes` are the bytes of the source at `index`; an empty piece only stands for an empty file. */
  ghost predicate Piece(src: seq<byte>, index: nat, bytes: seq<byte>)
  {
    index + |bytes| <= |src| && bytes == src[index..index + |bytes|] && (src != [] ==> bytes != [])
  }

  ghost predicate Covers(index: nat, bytes: seq<byte>, p: nat)
  {
    index <= p < index + |bytes|
  }

  /** Position p of the source is still on its way to the slave's file. */
  ghost predicate OnTheWay(out: seq<Msg>, ios: seq<IO>, p: nat)
  {
    || (exists k :: 0 <= k < |out| && out[k].Data? && Covers(out[k].index, out[k].bytes, p))
    || (exists k :: 0 <= k < |ios| && !ios[k].applied && Covers(ios[k].index, ios[k].data, p))
  }

  ghost predicate Landed(src: seq<byte>, f: seq<byte>, p: nat)
  {
    p < |f| && p < |src| && f[p] == src[p]
  }

  /** How the files dealt with so far ended: in queue order from the back, each copied file intact. */
  ghost predicate LogOk(files: Files, names: seq<Name>, disk: Files, log: seq<Entry>)
  {
    && |log| <= |names|
    && (forall k :: 0 <= k < |log| ==> log[k].name == names[|names| - 1 - k])
    && (forall k :: 0 <= k < |log| && log[k].outcome.Copied? ==>
          log[k].name in disk && disk[log[k].name] == Content(files, log[k].name))
  }

  ghost predicate CountsOk(files: Files, c: Ctx, log: seq<Entry>)
  {
    c.fileCnt == CountCopied(log) && c.dirSize == SumCopied(files, log)
  }

  ghost predicate NamesOk(files: Files, names: seq<Name>, isDir: bool)
  {
    && names != []
    && (forall i, j :: 0 <= i < j < |names| ==> names[i] != names[j])
    && (isDir ==> forall i :: 0 <= i < |names| ==> HasSeparator(names[i]))
    && (!isDir ==> |names| == 1)
  }

  /** What holds at all times, with `left` files not yet opened. */
  ghost predicate Basics(files: Files, names: seq<Name>, y: System)
  {
    var left := |y.m.ctx.taskQueue|;
    && NamesOk(files, names, y.m.ctx.isDir)
    && left < |names| && y.m.ctx.taskQueue == names[..left] && y.m.ctx.name == names[left]
    && |y.openings| == |names| - left && (forall k :: 0 <= k < |y.openings| ==> y.openings[k] == names[|names| - 1 - k])
    && y.m.ctx.master && !y.s.ctx.master && !y.s.ctx.isStableBufSize
    && (y.s.ctx.isDir ==> HasSeparator(y.m.ctx.name)) && y.s.ctx.taskQueue == []
    && y.m.ctx.fileCnt == (if y.m.ctx.lastErrno == 0 then 0 else 1)
    && LogOk(files, names, y.disk, y.log)
  }

  /** What holds as long as no file IO has failed or been refused. */
  ghost predicate Common(files: Files, names: seq<Name>, y: System)
  {
    && Basics(files, names, y)
    && y.m.ctx.lastErrno == 0 && y.s.ctx.lastErrno == 0 && !y.m.ctx.closeNotify
    && CountsOk(files, y.s.ctx, y.log)
  }

  ghost predicate Idle(y: System)
  {
    y.m.ios == [] && y.s.ios == []
  }

  /** The current file has no outcome yet, respectively has one. */
  ghost predicate Unresolved(names: seq<Name>, y: System) { |y.log| + |y.m.ctx.taskQueue| + 1 == |names| }
  ghost predicate Resolved(names: seq<Name>, y: System) { |y.log| + |y.m.ctx.taskQueue| == |names| }

  ghost predicate Open(y: System) { !y.m.closed && !y.s.closed && y.zeros == 0 }

  function Source(files: Files, y: System): seq<byte> { Content(files, y.m.ctx.name) }

  ghost predicate MasterReady(files: Files, y: System)
  {
    y.m.opens == 0 && y.m.ctx.indexIO == 0 && !y.m.ctx.ioFinish && y.m.ctx.fileSize == |Source(files, y)|
  }

  ghost predicate SlaveKnows(files: Files, y: System)
  {
    y.s.ctx.name == y.m.ctx.name && y.s.ctx.fileSize == |Source(files, y)| && y.s.ctx.isDir == HasSeparator(y.m.ctx.name)
  }

  ghost predicate Opening(files: Files, names: seq<Name>, y: System)
  {
    Open(y) && Idle(y) && Unresolved(names, y) && y.m.opens == 1 && y.s.opens == 0 && y.m.out == [] && y.s.out == []
  }

  ghost predicate Checking(files: Files, names: seq<Name>, y: System)
  {
    && Open(y) && Idle(y) && Unresolved(names, y) && MasterReady(files, y) && y.s.opens == 0
    && y.m.out == [Check(y.m.ctx.name, |Source(files, y)|)] && y.s.out == []
  }

  ghost predicate SlaveOpening(files: Files, names: seq<Name>, y: System)
  {
    && Open(y) && Idle(y) && Unresolved(names, y) && MasterReady(files, y) && SlaveKnows(files, y)
    && y.s.opens == 1 && y.m.out == [] && y.s.out == []
  }

  ghost predicate SlaveReady(files: Files, y: System)
  {
    && SlaveKnows(files, y) && y.s.opens == 0 && !y.s.ctx.ioFinish && !y.s.ctx.closeNotify
    && y.m.ctx.name in y.disk
  }

  ghost predicate Beginning(files: Files, names: seq<Name>, y: System)
  {
    && Open(y) && Idle(y) && Unresolved(names, y) && MasterReady(files, y) && SlaveReady(files, y)
    && y.s.ctx.indexIO == 0 && y.disk[y.m.ctx.name] == []
    && y.m.out == [] && |y.s.out| == 1 && y.s.out[0].Begin?
  }

  ghost predicate PiecesOk(src: seq<byte>, out: seq<Msg>, ios: seq<IO>)
  {
    && (forall k :: 0 <= k < |out| ==>
          out[k].Data? && Piece(src, out[k].index, out[k].bytes) && |out[k].bytes| <= READ_MAX)
    && (forall k :: 0 <= k < |ios| ==> ios[k].bytes == |ios[k].data| && Piece(src, ios[k].index, ios[k].data))
  }

  /** Each of the first `n` bytes is in the slave's file or on its way there. */
  ghost predicate NothingLost(src: seq<byte>, f: seq<byte>, out: seq<Msg>, ios: seq<IO>, n: nat)
  {
    |f| <= |src| && forall p :: 0 <= p < n ==> Landed(src, f, p) || OnTheWay(out, ios, p)
  }

  ghost predicate Reading(src: seq<byte>, m: End)
  {
    && !m.ctx.ioFinish && |m.ios| == 1 && m.ios[0].index == m.ctx.indexIO && 0 < m.ios[0].bytes <= READ_MAX
    && (src != [] ==> m.ctx.indexIO < |src|)
  }

  ghost predicate ReadAll(src: seq<byte>, m: End)
  {
    m.ctx.ioFinish && m.ios == [] && m.ctx.indexIO == |src|
  }

  ghost predicate Streaming(files: Files, names: seq<Name>, y: System)
  {
    var src := Source(files, y);
    && Open(y) && Unresolved(names, y) && SlaveReady(files, y)
    && y.m.opens == 0 && y.m.ctx.fileSize == |src| && y.m.ctx.indexIO <= |src| && y.s.out == []
    && (Reading(src, y.m) || ReadAll(src, y.m))
    && PiecesOk(src, y.m.out, y.s.ios) && NothingLost(src, y.disk[y.m.ctx.name], y.m.out, y.s.ios, y.m.ctx.indexIO)
    && y.s.ctx.indexIO + SumIO(y.s.ios) + SumOut(y.m.out) == y.m.ctx.indexIO
    && (src != [] ==> y.s.ctx.indexIO < |src|)
    && (src == [] ==> |y.m.out| + |y.s.ios| == if y.m.ctx.ioFinish then 1 else 0)
  }

  ghost predicate Finishing(files: Files, names: seq<Name>, y: System)
  {
    && Open(y) && Idle(y) && Resolved(names, y)
    && y.m.opens == 0 && y.s.opens == 0 && y.m.out == [] && y.s.out == [Finish(true)]
  }

  ghost predicate Ending(files: Files, names: seq<Name>, y: System)
  {
    && !y.m.closed && !y.s.closed && y.zeros == 1 && Idle(y) && Resolved(names, y) && y.m.ctx.taskQueue == []
    && y.m.opens == 0 && y.s.opens == 0 && y.m.out == [Finish(false)] && y.s.out == []
  }

  ghost predicate Silent(y: System)
  {
    Idle(y) && y.m.opens == 0 && y.s.opens == 0 && y.m.out == [] && y.s.out == []
  }

  ghost predicate Ended(files: Files, names: seq<Name>, y: System)
  {
    && Silent(y) && !y.m.closed && y.s.closed && y.zeros == 1 && Resolved(names, y) && y.m.ctx.taskQueue == []
  }

  /** A single file that one end could not open. */
  ghost predicate Aborted(files: Files, names: seq<Name>, y: System)
  {
    && Silent(y) && y.m.closed != y.s.closed && y.zeros == 0 && !y.m.ctx.isDir
    && y.log == [Entry(y.m.ctx.name, if y.m.closed then MasterFailed else SlaveFailed)]
  }

  ghost predicate Working(files: Files, names: seq<Name>, y: System)
  {
    && Common(files, names, y)
    && (|| Opening(files, names, y) || Checking(files, names, y) || SlaveOpening(files, names, y)
        || Beginning(files, names, y) || Streaming(files, names, y) || Finishing(files, names, y)
        || Ending(files, names, y) || Ended(files, names, y) || Aborted(files, names, y))
  }

  // After an error or a refusal of file IO the current file gets no outcome any more.

  /** Pieces of the file, and behind them the FINISH(1) of a failed read. */
  ghost predicate OutOk(src: seq<byte>, m: End)
  {
    forall k :: 0 <= k < |m.out| ==>
      if m.out[k].Data? then Piece(src, m.out[k].index, m.out[k].bytes) && |m.out[k].bytes| <= READ_MAX
      else m.out[k] == Finish(true) && k == |m.out| - 1 && m.ctx.lastErrno != 0
  }

  ghost predicate MasterHalf(src: seq<byte>, m: End)
  {
    && m.opens == 0 && m.ctx.fileSize == |src| && m.ctx.indexIO <= |src| && OutOk(src, m)
    && (m.ios == [] || (Reading(src, m) && m.ctx.lastErrno == 0 && !m.ctx.closeNotify))
  }

  /** A write failed: the slave has finished its task and counted a file it does not have. */
  ghost predicate BrokenOff(m: End, s: End, log: seq<Entry>)
  {
    && s.closed && s.ctx.lastErrno != 0 && s.ctx.ioFinish && s.out != [] && s.out[0] == Finish(true)
    && s.ctx.fileCnt > CountCopied(log) && !m.closed
  }

  ghost predicate Unharmed(files: Files, s: End, log: seq<Entry>)
  {
    s.ctx.lastErrno == 0 && !s.ctx.closeNotify && CountsOk(files, s.ctx, log)
  }

  /** The slave waits for bytes that will not come, or for the FINISH(1) of a failed read, which may be lost. The master may
      still read if a write was refused, after which the slave has finished its task; and it has finished
      its own if the first read was refused. */
  ghost predicate Starved(src: seq<byte>, m: End, s: End)
  {
    && !s.ctx.ioFinish && s.out == [] && (m.ios != [] ==> s.closed)
    && (m.closed ==> m.ios == [] && m.out == [] && s.ios == [])
    && (forall k :: 0 <= k < |s.ios| ==> s.ios[k].bytes == |s.ios[k].data| && Piece(src, s.ios[k].index, s.ios[k].data))
    && (src != [] ==> s.ctx.indexIO + SumIO(s.ios) + SumOut(m.out) < if m.ios == [] then |src| else m.ctx.indexIO)
    && (src == [] ==> s.ios == [] && m.ios == [] && forall k :: 0 <= k < |m.out| ==> !m.out[k].Data?)
  }

  /** The slave has taken that FINISH(1) and answers with FINISH(0), which may be lost. */
  ghost predicate Told(m: End, s: End)
  {
    && s.ctx.ioFinish && m.ios == [] && m.out == [] && m.ctx.lastErrno != 0
    && (s.out == [] || (s.out == [Finish(false)] && !m.closed)) && (s.closed ==> !m.closed)
  }

  ghost predicate Halted(files: Files, names: seq<Name>, y: System)
  {
    && Unresolved(names, y) && y.zeros == 0 && y.s.opens == 0 && SlaveKnows(files, y)
    && MasterHalf(Source(files, y), y.m)
    && (|| BrokenOff(y.m, y.s, y.log)
        || (Unharmed(files, y.s, y.log) && (Starved(Source(files, y), y.m, y.s) || Told(y.m, y.s))))
  }

  /** A request for an open or a control message was lost outside the data phase, or the slave has turned
      the file down: nothing is in progress any more. */
  ghost predicate Hushed(files: Files, names: seq<Name>, y: System)
  {
    && Common(files, names, y) && Silent(y) && !y.m.closed && (y.s.closed ==> Unresolved(names, y))
    && (Unresolved(names, y) || Resolved(names, y))
    && y.zeros <= 1 && (y.zeros == 1 ==> y.m.ctx.taskQueue == [] && Resolved(names, y))
  }

  ghost predicate Inv(files: Files, names: seq<Name>, y: System)
  {
    Working(files, names, y) || (Basics(files, names, y) && Halted(files, names, y)) || Hushed(files, names, y)
  }

  /** BeginTransfer has issued the first open; the slave is a new task, its disk may hold anything. */
  ghost predicate Init(files: Files, names: seq<Name>, isDir: bool, y: System)
  {
    var n := |names| - 1;
    && NamesOk(files, names, isDir)
    && y.m.opens == 1 && y.m.ios == [] && y.m.out == [] && !y.m.closed
    && y.m.ctx.master && y.m.ctx.isDir == isDir && y.m.ctx.name == names[n] && y.m.ctx.taskQueue == names[..n]
    && y.m.ctx.lastErrno == 0 && !y.m.ctx.closeNotify && y.m.ctx.fileCnt == 0
    && y.s.opens == 0 && y.s.ios == [] && y.s.out == [] && !y.s.closed
    && !y.s.ctx.master && !y.s.ctx.isDir && !y.s.ctx.isStableBufSize && y.s.ctx.lastErrno == 0
    && y.s.ctx.taskQueue == [] && y.s.ctx.fileCnt == 0 && y.s.ctx.dirSize == 0
    && y.openings == [names[n]] && y.log == [] && y.zeros == 0
  }

  lemma InitInv(files: Files, names: seq<Name>, isDir: bool, y: System)
    requires Init(files, names, isDir, y)
    ensures Inv(files, names, y)
  {
    assert Opening(files, names, y);
  }

  // ------------------------------------------------------------ steps outside the data phase

  /** One more outcome in the log, for the current file. */
  lemma Logged(files: Files, names: seq<Name>, disk: Files, log: seq<Entry>, e: Entry)
    requires LogOk(files, names, disk, log) && |log| < |names| && e.name == names[|names| - 1 - |log|]
    requires e.outcome.Copied? ==> e.name in disk && disk[e.name] == Content(files, e.name)
    ensures LogOk(files, names, disk, log + [e])
  {
    var log' := log + [e];
    forall k | 0 <= k < |log'| && log'[k].outcome.Copied?
      ensures log'[k].name in disk && disk[log'[k].name] == Content(files, log'[k].name)
    {
      if k < |log| {
        assert log'[k] == log[k];
      }
    }
  }

  lemma LogSnoc(files: Files, log: seq<Entry>, e: Entry)
    ensures CountCopied(log + [e]) == CountCopied(log) + if e.outcome.Copied? then 1 else 0
    ensures SumCopied(files, log + [e]) == SumCopied(files, log) + if e.outcome.Copied? then |Content(files, e.name)| else 0
  {
    assert (log + [e])[..|log|] == log;
  }

  /** The log after a failed open at the master. */
  lemma MasterFailureLogged(files: Files, names: seq<Name>, y: System)
    requires Common(files, names, y) && Unresolved(names, y)
    ensures var log := y.log + [Entry(y.m.ctx.name, MasterFailed)];
      LogOk(files, names, y.disk, log) && CountsOk(files, y.s.ctx, log)
  {
    Logged(files, names, y.disk, y.log, Entry(y.m.ctx.name, MasterFailed));
    LogSnoc(files, y.log, Entry(y.m.ctx.name, MasterFailed));
  }

  lemma LastOpenFailedKeeps(files: Files, names: seq<Name>, y: System)
    requires Common(files, names, y) && Opening(files, names, y) && (!y.m.ctx.isDir || y.m.ctx.taskQueue == [])
    ensures var z := MasterOpens(files, y, false);
      Common(files, names, z) && if y.m.ctx.isDir then Ending(files, names, z) else Aborted(files, names, z)
  {
    MasterFailureLogged(files, names, y);
  }

  lemma NextOpenKeeps(files: Files, names: seq<Name>, y: System)
    requires Common(files, names, y) && Opening(files, names, y) && y.m.ctx.isDir && y.m.ctx.taskQueue != []
    ensures Common(files, names, MasterOpens(files, y, false)) && Opening(files, names, MasterOpens(files, y, false))
  {
    MasterFailureLogged(files, names, y);
  }

  /** A failed open at the master goes on with the next file, ends the directory, or ends the task. */
  lemma MasterOpenFailedKeeps(files: Files, names: seq<Name>, y: System)
    requires Common(files, names, y) && Opening(files, names, y)
    ensures var z := MasterOpens(files, y, false);
      && Common(files, names, z)
      && if !y.m.ctx.isDir then Aborted(files, names, z)
         else if y.m.ctx.taskQueue != [] then Opening(files, names, z)
         else Ending(files, names, z)
  {
    if y.m.ctx.isDir && y.m.ctx.taskQueue != [] {
      NextOpenKeeps(files, names, y);
    } else {
      LastOpenFailedKeeps(files, names, y);
    }
  }

  lemma MasterOpenedKeeps(files: Files, names: seq<Name>, y: System)
    requires Common(files, names, y) && Opening(files, names, y)
    ensures Common(files, names, MasterOpens(files, y, true)) && Checking(files, names, MasterOpens(files, y, true))
  {
  }

  lemma CheckTakenKeeps(files: Files, names: seq<Name>, y: System)
    requires Common(files, names, y) && Checking(files, names, y)
    ensures Working(files, names, SlaveReceives(y, true))
  {
    assert SlaveOpening(files, names, SlaveReceives(y, true));
  }

  lemma SlaveOpenedKeeps(files: Files, names: seq<Name>, y: System, ok: bool)
    requires Common(files, names, y) && SlaveOpening(files, names, y)
    ensures Working(files, names, SlaveOpens(y, ok))
  {
    var y' := SlaveOpens(y, ok);
    if ok {
      NotLogged(files, names, y);
      assert LogOk(files, names, y'.disk, y'.log);
      assert Beginning(files, names, y');
    } else {
      Logged(files, names, y.disk, y.log, Entry(y.m.ctx.name, SlaveFailed));
      LogSnoc(files, y.log, Entry(y.m.ctx.name, SlaveFailed));
      if HasSeparator(y.m.ctx.name) {
        assert Finishing(files, names, y');
      } else {
        assert Aborted(files, names, y');
      }
    }
  }

  lemma BeginTakenKeeps(files: Files, names: seq<Name>, y: System)
    requires Common(files, names, y) && Beginning(files, names, y)
    ensures Working(files, names, MasterReceives(y, true))
  {
    var y' := MasterReceives(y, true);
    assert Streaming(files, names, y');
  }

  lemma FinishTakenKeeps(files: Files, names: seq<Name>, y: System)
    requires Common(files, names, y) && Finishing(files, names, y)
    ensures Working(files, names, MasterReceives(y, true))
  {
    var y' := MasterReceives(y, true);
    if y.m.ctx.isDir && y.m.ctx.taskQueue != [] {
      assert Opening(files, names, y');
    } else {
      assert Ending(files, names, y');
    }
  }

  lemma EndTakenKeeps(files: Files, names: seq<Name>, y: System)
    requires Common(files, names, y) && Ending(files, names, y)
    ensures Working(files, names, SlaveReceives(y, true))
  {
    assert Ended(files, names, SlaveReceives(y, true));
  }

  // ------------------------------------------------------------ steps of the data phase

  lemma {:induction false} SumOutSnoc(ms: seq<Msg>, index: nat, bytes: seq<byte>)
    ensures SumOut(ms + [Data(index, bytes)]) == SumOut(ms) + |bytes|
  {
    if ms != [] {
      assert (ms + [Data(index, bytes)])[1..] == ms[1..] + [Data(index, bytes)];
      SumOutSnoc(ms[1..], index, bytes);
    }
  }

  lemma {:induction false} SumIOJoin(a: seq<IO>, b: seq<IO>)
    ensures SumIO(a + b) == SumIO(a) + SumIO(b)
  {
    if a == [] {
      assert a + b == b;
    } else {
      assert (a + b)[1..] == a[1..] + b;
      SumIOJoin(a[1..], b);
    }
  }

  lemma SumIOWithout(ios: seq<IO>, i: nat)
    requires i < |ios|
    ensures SumIO(ios) == SumIO(Without(ios, i)) + |ios[i].data|
  {
    assert ios == ios[..i] + ([ios[i]] + ios[i + 1..]);
    SumIOJoin(ios[..i], [ios[i]] + ios[i + 1..]);
    SumIOJoin(ios[..i], ios[i + 1..]);
    assert ([ios[i]] + ios[i + 1..])[1..] == ios[i + 1..];
  }

  lemma SumIOApplied(ios: seq<IO>, i: nat)
    requires i < |ios|
    ensures SumIO(ios[i := ios[i].(applied := true)]) == SumIO(ios)
  {
    var after := ios[i := ios[i].(applied := true)];
    SumIOWithout(ios, i);
    SumIOWithout(after, i);
    assert Without(ios, i) == Without(after, i);
  }

  /** One more piece read: it is on its way. */
  lemma ReadOnTheWay(src: seq<byte>, f: seq<byte>, out: seq<Msg>, ios: seq<IO>, at: nat, data: seq<byte>)
    requires NothingLost(src, f, out, ios, at)
    ensures NothingLost(src, f, out + [Data(at, data)], ios, at + |data|)
  {
    var out' := out + [Data(at, data)];
    forall p | 0 <= p < at + |data| ensures Landed(src, f, p) || OnTheWay(out', ios, p) {
      assert out'[|out|] == Data(at, data);
      assert Covers(at, data, p) || p < at;
      assert forall k :: 0 <= k < |out| ==> out'[k] == out[k];
    }
  }

  /** The master after a successful read of `data`. */
  function Advanced(m: End, data: seq<byte>, sent: bool, granted: bool): End
  {
    var c := Count(m.ctx, |data|);
    if !sent then m.(ctx := Shut(c), ios := [])
    else
      var m := m.(out := m.out + [Data(m.ctx.indexIO, data)]);
      if data == [] || c.indexIO >= c.fileSize then m.(ctx := Shut(c), ios := [])
      else m.(ctx := c, ios := if granted then [IO(c.indexIO, ReadSize(c), [], false)] else [])
  }

  lemma GoodRead(m: End, data: seq<byte>, sent: bool, granted: bool)
    requires |m.ios| == 1 && m.ctx.master && !m.ctx.ioFinish && m.ctx.lastErrno == 0 && !m.ctx.closeNotify
    ensures OnFileIO(m, 0, |data|, data, sent, granted) == Advanced(m, data, sent, granted)
  {
    assert Without(m.ios, 0) == [];
  }

  /** The bytes the current read delivers. */
  function Delivered(files: Files, y: System, n: nat): seq<byte>
    requires CanRead(files, y, n)
  {
    ReadAt(Content(files, y.m.ctx.name), y.m.ios[0].index, n)
  }

  lemma ReadResult(files: Files, y: System, n: nat, sent: bool, granted: bool)
    requires CanRead(files, y, n) && |y.m.ios| == 1
    requires y.m.ctx.master && !y.m.ctx.ioFinish && y.m.ctx.lastErrno == 0 && !y.m.ctx.closeNotify
    ensures MasterReads(files, y, n, sent, granted) == y.(m := Advanced(y.m, Delivered(files, y, n), sent, granted))
  {
    GoodRead(y.m, Delivered(files, y, n), sent, granted);
  }

  lemma DeliveredPiece(files: Files, y: System, n: nat)
    requires CanRead(files, y, n) && Reading(Source(files, y), y.m) && y.m.ctx.indexIO <= |Source(files, y)|
    ensures Piece(Source(files, y), y.m.ctx.indexIO, Delivered(files, y, n)) && |Delivered(files, y, n)| <= READ_MAX
  {
  }

  /** After a piece the master reads on, or has read all. */
  lemma ReadOn(src: seq<byte>, m: End, data: seq<byte>)
    requires Reading(src, m) && Piece(src, m.ctx.indexIO, data) && m.ctx.fileSize == |src|
    ensures var t := Advanced(m, data, true, true);
      && (Reading(src, t) || ReadAll(src, t)) && t.ctx.indexIO == m.ctx.indexIO + |data| <= |src|
      && t.out == m.out + [Data(m.ctx.indexIO, data)] && (src == [] ==> t.ctx.ioFinish)
      && t == m.(ctx := m.ctx.(indexIO := t.ctx.indexIO, ioFinish := t.ctx.ioFinish, isFdOpen := t.ctx.isFdOpen), ios := t.ios, out := t.out)
  {
  }

  lemma MoreRead(files: Files, names: seq<Name>, y: System, data: seq<byte>)
    requires Common(files, names, y) && Streaming(files, names, y) && Reading(Source(files, y), y.m)
    requires Piece(Source(files, y), y.m.ctx.indexIO, data) && |data| <= READ_MAX
    ensures var y' := y.(m := Advanced(y.m, data, true, true)); Common(files, names, y') && Streaming(files, names, y')
  {
    var src, at := Source(files, y), y.m.ctx.indexIO;
    ReadOn(src, y.m, data);
    SumOutSnoc(y.m.out, at, data);
    ReadOnTheWay(src, y.disk[y.m.ctx.name], y.m.out, y.s.ios, at, data);
    PiecesSnoc(src, y.m.out, y.s.ios, at, data);
  }

  lemma PiecesSnoc(src: seq<byte>, out: seq<Msg>, ios: seq<IO>, at: nat, data: seq<byte>)
    requires PiecesOk(src, out, ios) && Piece(src, at, data) && |data| <= READ_MAX
    ensures PiecesOk(src, out + [Data(at, data)], ios)
  {
  }

  lemma MasterReadKeeps(files: Files, names: seq<Name>, y: System, n: nat)
    requires Common(files, names, y) && Streaming(files, names, y) && Enabled(files, y, MasterRead(n))
    ensures Common(files, names, MasterReads(files, y, n, true, true))
    ensures Streaming(files, names, MasterReads(files, y, n, true, true))
  {
    ReadResult(files, y, n, true, true);
    DeliveredPiece(files, y, n);
    MoreRead(files, names, y, Delivered(files, y, n));
  }

  lemma TakenOnTheWay(out: seq<Msg>, ios: seq<IO>, p: nat)
    requires out != [] && out[0].Data? && OnTheWay(out, ios, p)
    ensures OnTheWay(out[1..], ios + [IO(out[0].index, |out[0].bytes|, out[0].bytes, false)], p)
  {
    var io := IO(out[0].index, |out[0].bytes|, out[0].bytes, false);
    var ios' := ios + [io];
    if k :| 0 <= k < |out| && out[k].Data? && Covers(out[k].index, out[k].bytes, p) {
      if k == 0 {
        assert ios'[|ios|] == io;
      } else {
        assert out[1..][k - 1] == out[k];
      }
    } else {
      var k :| 0 <= k < |ios| && !ios[k].applied && Covers(ios[k].index, ios[k].data, p);
      assert ios'[k] == ios[k];
    }
  }

  lemma TakenNothingLost(src: seq<byte>, f: seq<byte>, out: seq<Msg>, ios: seq<IO>, n: nat)
    requires out != [] && out[0].Data? && NothingLost(src, f, out, ios, n)
    ensures NothingLost(src, f, out[1..], ios + [IO(out[0].index, |out[0].bytes|, out[0].bytes, false)], n)
  {
    var ios' := ios + [IO(out[0].index, |out[0].bytes|, out[0].bytes, false)];
    forall p | 0 <= p < n ensures Landed(src, f, p) || OnTheWay(out[1..], ios', p) {
      if !Landed(src, f, p) {
        TakenOnTheWay(out, ios, p);
      }
    }
  }

  lemma DataTakenKeeps(files: Files, names: seq<Name>, y: System)
    requires Common(files, names, y) && Streaming(files, names, y) && y.m.out != []
    ensures Common(files, names, SlaveReceives(y, true)) && Streaming(files, names, SlaveReceives(y, true))
  {
    var msg := y.m.out[0];
    var io := IO(msg.index, |msg.bytes|, msg.bytes, false);
    assert SlaveReceives(y, true).s.ios == y.s.ios + [io];
    SumIOJoin(y.s.ios, [io]);
    TakenNothingLost(Source(files, y), y.disk[y.m.ctx.name], y.m.out, y.s.ios, y.m.ctx.indexIO);
  }

  lemma AppliedLands(src: seq<byte>, f: seq<byte>, out: seq<Msg>, ios: seq<IO>, i: nat, p: nat)
    requires i < |ios| && Piece(src, ios[i].index, ios[i].data)
    requires Landed(src, f, p) || OnTheWay(out, ios, p)
    ensures
      || Landed(src, WriteAt(f, ios[i].index, ios[i].data), p)
      || OnTheWay(out, ios[i := ios[i].(applied := true)], p)
  {
    var ios' := ios[i := ios[i].(applied := true)];
    if !Landed(src, f, p) && !Covers(ios[i].index, ios[i].data, p) {
      if k :| 0 <= k < |ios| && !ios[k].applied && Covers(ios[k].index, ios[k].data, p) {
        assert ios'[k] == ios[k];
      }
    }
  }

  /** The file being written is none of those already dealt with. */
  lemma NotLogged(files: Files, names: seq<Name>, y: System)
    requires Common(files, names, y) && Unresolved(names, y)
    ensures forall k :: 0 <= k < |y.log| ==> y.log[k].name != y.m.ctx.name
  {
  }

  lemma AppliedNothingLost(src: seq<byte>, f: seq<byte>, out: seq<Msg>, ios: seq<IO>, n: nat, i: nat)
    requires i < |ios| && Piece(src, ios[i].index, ios[i].data) && NothingLost(src, f, out, ios, n)
    ensures NothingLost(src, WriteAt(f, ios[i].index, ios[i].data), out, ios[i := ios[i].(applied := true)], n)
  {
    var f', ios' := WriteAt(f, ios[i].index, ios[i].data), ios[i := ios[i].(applied := true)];
    forall p | 0 <= p < n ensures Landed(src, f', p) || OnTheWay(out, ios', p) {
      AppliedLands(src, f, out, ios, i, p);
    }
  }

  lemma AppliedKeeps(files: Files, names: seq<Name>, y: System, i: nat)
    requires Common(files, names, y) && Streaming(files, names, y) && i < |y.s.ios|
    ensures Common(files, names, Applies(y, i)) && Streaming(files, names, Applies(y, i))
  {
    NotLogged(files, names, y);
    SumIOApplied(y.s.ios, i);
    AppliedNothingLost(Source(files, y), y.disk[y.m.ctx.name], y.m.out, y.s.ios, y.m.ctx.indexIO, i);
    assert LogOk(files, names, Applies(y, i).disk, y.log);
  }

  lemma WithoutOnTheWay(out: seq<Msg>, ios: seq<IO>, i: nat, p: nat)
    requires i < |ios| && ios[i].applied && OnTheWay(out, ios, p)
    ensures OnTheWay(out, Without(ios, i), p)
  {
    if k :| 0 <= k < |ios| && !ios[k].applied && Covers(ios[k].index, ios[k].data, p) {
      assert Without(ios, i)[if k < i then k else k - 1] == ios[k];
    }
  }

  lemma WithoutNothingLost(src: seq<byte>, f: seq<byte>, out: seq<Msg>, ios: seq<IO>, n: nat, i: nat)
    requires i < |ios| && ios[i].applied && NothingLost(src, f, out, ios, n)
    ensures NothingLost(src, f, out, Without(ios, i), n)
  {
    forall p | 0 <= p < n ensures Landed(src, f, p) || OnTheWay(out, Without(ios, i), p) {
      if !Landed(src, f, p) {
        WithoutOnTheWay(out, ios, i, p);
      }
    }
  }

  /** When the byte count reaches the size, nothing is left on its way: every piece is nonempty. */
  lemma CountTellsAll(src: seq<byte>, y: System, i: nat)
    requires i < |y.s.ios| && PiecesOk(src, y.m.out, y.s.ios) && y.m.ctx.indexIO <= |src|
    requires y.s.ctx.indexIO + SumIO(y.s.ios) + SumOut(y.m.out) == y.m.ctx.indexIO
    requires src != [] && y.s.ctx.indexIO + |y.s.ios[i].data| >= |src|
    ensures Without(y.s.ios, i) == [] && y.m.out == [] && y.m.ctx.indexIO == |src|
  {
    SumIOWithout(y.s.ios, i);
    SumIOBound(Without(y.s.ios, i));
    SumOutBound(y.m.out);
  }

  lemma {:induction false} SumIOBound(ios: seq<IO>)
    requires forall k :: 0 <= k < |ios| ==> ios[k].data != []
    ensures SumIO(ios) >= |ios|
  {
    if ios != [] {
      SumIOBound(ios[1..]);
    }
  }

  lemma {:induction false} SumOutBound(ms: seq<Msg>)
    requires forall k :: 0 <= k < |ms| ==> ms[k].Data? && ms[k].bytes != []
    ensures SumOut(ms) >= |ms|
  {
    if ms != [] {
      SumOutBound(ms[1..]);
    }
  }

  lemma AllLanded(src: seq<byte>, f: seq<byte>)
    requires |f| <= |src| && forall p :: 0 <= p < |src| ==> Landed(src, f, p)
    ensures f == src
  {
    assert src != [] ==> Landed(src, f, |src| - 1);
    forall p | 0 <= p < |src| ensures f[p] == src[p] {
      assert Landed(src, f, p);
    }
  }

  /** The write callback that completes the file: the file is the source, and no request is left. */
  lemma LastWritten(files: Files, names: seq<Name>, y: System, i: nat)
    requires Common(files, names, y) && Streaming(files, names, y) && Enabled(files, y, Written(i))
    requires var io := y.s.ios[i]; y.s.ctx.indexIO + io.bytes >= y.s.ctx.fileSize || io.bytes == 0
    ensures y.disk[y.m.ctx.name] == Source(files, y)
    ensures Without(y.s.ios, i) == [] && y.m.out == [] && y.m.ios == []
    ensures y.s.ctx.indexIO + y.s.ios[i].bytes == |Source(files, y)|
  {
    var src, f := Source(files, y), y.disk[y.m.ctx.name];
    SumIOWithout(y.s.ios, i);
    if src != [] {
      CountTellsAll(src, y, i);
      WithoutNothingLost(src, f, y.m.out, y.s.ios, |src|, i);
      forall p | 0 <= p < |src| ensures Landed(src, f, p) {
        assert !OnTheWay([], [], p);
      }
      AllLanded(src, f);
    }
  }

  /** What a successful write callback does to the slave. */
  lemma GoodWrite(s: End, i: nat)
    requires i < |s.ios| && !s.ctx.master && !s.ctx.ioFinish && s.ctx.lastErrno == 0
    ensures
      var n := s.ios[i].bytes;
      var c := Count(s.ctx, n);
      OnFileIO(s, i, n, [], true, true) ==
        if c.indexIO >= c.fileSize || n == 0 then
          s.(ctx := Tally(Shut(MarkComplete(c))), ios := Without(s.ios, i), out := s.out + [Finish(true)])
        else s.(ctx := c, ios := Without(s.ios, i))
  {
    assert Without(s.ios, i) + [] == Without(s.ios, i);
  }

  predicate Completes(s: End, i: nat)
    requires i < |s.ios|
  {
    s.ctx.indexIO + s.ios[i].bytes >= s.ctx.fileSize || s.ios[i].bytes == 0
  }

  lemma LastWrittenKeeps(files: Files, names: seq<Name>, y: System, i: nat)
    requires Common(files, names, y) && Streaming(files, names, y) && Enabled(files, y, Written(i))
    requires Completes(y.s, i)
    ensures Common(files, names, Writes(y, i)) && Finishing(files, names, Writes(y, i))
  {
    GoodWrite(y.s, i);
    LastWritten(files, names, y, i);
    CopiedKeeps(files, names, y, Writes(y, i).s, Writes(y, i).log);
  }

  /** The state behind the last write callback of a file. */
  lemma CopiedKeeps(files: Files, names: seq<Name>, y: System, t: End, log: seq<Entry>)
    requires Common(files, names, y) && Open(y) && Unresolved(names, y) && SlaveReady(files, y) && y.m.opens == 0
    requires y.disk[y.m.ctx.name] == Source(files, y) && y.m.out == [] && y.m.ios == []
    requires t == End(t.ctx, y.s.opens, [], [Finish(true)], y.s.closed) && log == y.log + [Entry(y.m.ctx.name, Copied)]
    requires t.ctx == y.s.ctx.(indexIO := |Source(files, y)|, closeNotify := true, ioFinish := true, isFdOpen := false,
                               fileCnt := y.s.ctx.fileCnt + 1, dirSize := y.s.ctx.dirSize + |Source(files, y)|)
    ensures Common(files, names, y.(s := t, log := log)) && Finishing(files, names, y.(s := t, log := log))
  {
    Logged(files, names, y.disk, y.log, Entry(y.m.ctx.name, Copied));
    LogSnoc(files, y.log, Entry(y.m.ctx.name, Copied));
  }

  lemma WrittenKeeps(files: Files, names: seq<Name>, y: System, i: nat)
    requires Common(files, names, y) && Streaming(files, names, y) && Enabled(files, y, Written(i))
    requires !Completes(y.s, i)
    ensures Common(files, names, Writes(y, i)) && Streaming(files, names, Writes(y, i))
  {
    GoodWrite(y.s, i);
    SumIOWithout(y.s.ios, i);
    WithoutNothingLost(Source(files, y), y.disk[y.m.ctx.name], y.m.out, y.s.ios, y.m.ctx.indexIO, i);
  }

  // ------------------------------------------------------------ all steps without an error

  lemma WorkingMaster(files: Files, names: seq<Name>, y: System, e: Event)
    requires Working(files, names, y) && Enabled(files, y, e) && (e.MasterOpened? || e.MasterTakes? || e.MasterRead?)
    ensures Working(files, names, Step(files, y, e))
  {
    match e
    case MasterOpened(ok) =>
      if ok {
        MasterOpenedKeeps(files, names, y);
      } else {
        MasterOpenFailedKeeps(files, names, y);
      }
    case MasterTakes =>
      if Beginning(files, names, y) {
        BeginTakenKeeps(files, names, y);
      } else {
        FinishTakenKeeps(files, names, y);
      }
    case MasterRead(n) => MasterReadKeeps(files, names, y, n);
  }

  /** Only the data phase has file requests, and only it has Data on its way. */
  lemma WorkingStep(files: Files, names: seq<Name>, y: System, e: Event)
    requires Working(files, names, y) && Enabled(files, y, e) && !Fault(e)
    ensures Working(files, names, Step(files, y, e))
  {
    match e
    case SlaveTakes =>
      if Checking(files, names, y) {
        CheckTakenKeeps(files, names, y);
      } else if Streaming(files, names, y) {
        DataTakenKeeps(files, names, y);
      } else {
        EndTakenKeeps(files, names, y);
      }
    case SlaveOpened(ok) => SlaveOpenedKeeps(files, names, y, ok);
    case Applied(i) => AppliedKeeps(files, names, y, i);
    case Written(i) => WorkingWritten(files, names, y, i);
    case _ => WorkingMaster(files, names, y, e);
  }

  lemma WorkingWritten(files: Files, names: seq<Name>, y: System, i: nat)
    requires Working(files, names, y) && Enabled(files, y, Written(i))
    ensures Working(files, names, Writes(y, i))
  {
    if Completes(y.s, i) {
      LastWrittenKeeps(files, names, y, i);
    } else {
      WrittenKeeps(files, names, y, i);
    }
  }
}
