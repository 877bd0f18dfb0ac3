/** The transfer task as an object: the context of Transfer together with the reference count and the
    circle buffers its file requests own. Every method is proved to do to the context what Transfer
    says, in every case, errors included. */
module TransferTask {
  import opened Bytes
  import opened CircleBuffer
  import opened Transfer

  predicate Distinct(s: seq<nat>)
  {
    forall i, j :: 0 <= i < j < |s| ==> s[i] != s[j]
  }

  function Drop(s: seq<nat>, i: nat): seq<nat>
    requires i < |s|
  {
    s[..i] + s[i + 1..]
  }

  function Elements(s: seq<nat>): set<nat>
  {
    set i | 0 <= i < |s| :: s[i]
  }

  lemma DropOne(s: seq<nat>, i: nat)
    requires i < |s| && Distinct(s)
    ensures Distinct(Drop(s, i)) && Elements(Drop(s, i)) == Elements(s) - {s[i]}
  {
    var r := Drop(s, i);
    forall x | x in Elements(s) - {s[i]} ensures x in Elements(r) {
      var k :| 0 <= k < |s| && s[k] == x;
      assert r[if k < i then k else k - 1] == x;
    }
    forall k | 0 <= k < |r| ensures r[k] in Elements(s) - {s[i]} {
      assert r[k] == s[if k < i then k else k + 1];
    }
  }

  lemma PushOne(s: seq<nat>, x: nat)
    requires Distinct(s) && x !in Elements(s)
    ensures Distinct(s + [x]) && Elements(s + [x]) == Elements(s) + {x}
  {
    var r := s + [x];
    assert r[|s|] == x;
    assert forall k :: 0 <= k < |s| ==> r[k] == s[k];
  }

  class Task {
    var ctx: Ctx
    var opens: nat          // open requests in progress
    var ios: seq<IO>        // file requests in progress
    var bufs: seq<nat>      // the circle buffer of each of them
    var out: seq<Msg>
    var closed: bool
    var refCount: nat
    ghost var unanswered: nat   // opens that libuv did not take: counted, and never called back
    const cirbuf: Buffers

    ghost function View(): End
      reads this
    {
      End(ctx, opens, ios, out, closed)
    }

    /** The count is the requests in progress and the opens not taken, and the buffers in use are one for
        each file request. */
    ghost predicate Valid()
      reads this, cirbuf
    {
      && cirbuf.Valid()
      && refCount == opens + |ios| + unanswered
      && |bufs| == |ios| && Distinct(bufs) && InUse(cirbuf.buffers) == Elements(bufs)
    }

    constructor (c: Ctx, bulkSize: nat)
      ensures Valid() && fresh(cirbuf) && View() == End(c, 0, [], [], false) && unanswered == 0
    {
      cirbuf := new Buffers(bulkSize);
      ctx, opens, ios, bufs, out, closed, refCount, unanswered := c, 0, [], [], [], false, 0, 0;
    }

    /** Every address the allocator may return for a new buffer. */
    ghost predicate NewAddress(address: nat)
      reads this, cirbuf
    {
      forall i :: 0 <= i < |cirbuf.buffers| ==> cirbuf.buffers[i].address != address
    }

    /** A buffer is taken for the request, and given back at once when the request does not start.
        `memory` and `accepted` say whether the pool had memory and libuv took the request. */
    method SimpleFileIO(index: nat, bytes: int, data: seq<byte>, address: nat, memory: bool, accepted: bool, now: int)
      returns (ret: int)
      requires Valid() && NewAddress(address)
      modifies this`ios, this`bufs, this`refCount, cirbuf
      ensures Valid()
      ensures ret == bytes >= 0 || ret == -1
      ensures ret >= 0 ==> MayStart(ctx, bytes) && memory && accepted
      ensures MayStart(ctx, bytes) && memory && accepted && address != 0 ==> ret >= 0
      ensures ret < 0 ==> View() == old(View()) && bufs == old(bufs)
      ensures ret >= 0 ==>
        && View() == StartIO(old(View()), index, bytes, data, true)
        && bufs[..|bufs| - 1] == old(bufs) && bufs[|bufs| - 1] !in old(InUse(cirbuf.buffers))
    {
      var buf := cirbuf.Malloc(address, now);
      if buf == 0 {
        return -1;
      }
      if !memory {
        cirbuf.Free(buf, now);
        return -1;
      }
      if bytes < 0 || bytes > BufMax(ctx) || ctx.ioFinish || !accepted {
        cirbuf.Free(buf, now);
        return -1;
      }
      PushOne(bufs, buf);
      ios := ios + [IO(index, bytes, data, false)];
      bufs := bufs + [buf];
      refCount := refCount + 1;
      ret := bytes;
    }

    /** ++refCount and uv_fs_open; `taken` says whether libuv took the request. The count is raised in either
        case, and only a callback lowers it. */
    method RequestOpen(taken: bool)
      requires Valid()
      modifies this`opens, this`refCount, this`unanswered
      ensures Valid()
      ensures if taken then opens == old(opens) + 1 && unanswered == old(unanswered)
              else opens == old(opens) && unanswered == old(unanswered) + 1
    {
      refCount := refCount + 1;
      if taken {
        opens := opens + 1;
      } else {
        unanswered := unanswered + 1;
      }
    }

    method FinishCommand(more: bool, taken: bool)
      requires Valid()
      modifies this`ctx, this`opens, this`out, this`closed, this`refCount, this`unanswered
      ensures Valid()
      ensures var asks := more && OpensNext(old(ctx));
        && View() == (var e := Transfer.OnFinish(old(View()), more); if asks && !taken then OpenRefused(e) else e)
        && unanswered == old(unanswered) + if asks && !taken then 1 else 0
    {
      if more {
        ctx := ctx.(isFdOpen := false);
        if ctx.isDir && |ctx.taskQueue| > 0 {
          TransferNext(taken);
        } else {
          ctx := ctx.(ioFinish := true);
          out := out + [Finish(false)];
        }
      } else {
        closed := true;
      }
    }

    method TransferNext(taken: bool)
      requires Valid() && ctx.taskQueue != []
      modifies this`ctx, this`opens, this`refCount, this`unanswered
      ensures Valid()
      ensures if taken then opens == old(opens) + 1 && unanswered == old(unanswered)
              else opens == old(opens) && unanswered == old(unanswered) + 1
      ensures var n := |old(ctx).taskQueue| - 1;
        ctx == old(ctx).(name := old(ctx).taskQueue[n], taskQueue := old(ctx).taskQueue[..n])
    {
      var n := |ctx.taskQueue| - 1;
      ctx := ctx.(name := ctx.taskQueue[n], taskQueue := ctx.taskQueue[..n]);
      RequestOpen(taken);
    }

    method OnFileOpenFailed(taken: bool)
      requires Valid()
      modifies this`ctx, this`opens, this`out, this`closed, this`refCount, this`unanswered
      ensures Valid()
      ensures var asks := old(ctx).master && OpensNext(old(ctx));
        && unanswered == old(unanswered) + (if asks && !taken then 1 else 0)
        && View() ==
           if !old(ctx).isDir then old(View()).(closed := true)
           else if !old(ctx).master then Send(old(View()), Finish(true))
           else if asks && !taken then OpenRefused(Transfer.OnFinish(old(View()), true))
           else Transfer.OnFinish(old(View()), true)
    {
      if ctx.isDir && ctx.master {
        FinishCommand(true, taken);
      } else if ctx.isDir && !ctx.master {
        out := out + [Finish(true)];
      } else {
        closed := true;
      }
    }

    /** The callback of an open, and with a failed one at the master the open of the next file. */
    method OnFileOpen(ok: bool, size: nat, taken: bool)
      requires Valid() && opens > 0
      modifies this`ctx, this`opens, this`out, this`closed, this`refCount, this`unanswered
      ensures Valid()
      ensures var asks := !ok && old(ctx).master && OpensNext(old(ctx));
        && unanswered == old(unanswered) + (if asks && !taken then 1 else 0)
        && View() == (var e := Transfer.OnFileOpen(old(View()), ok, size); if asks && !taken then OpenRefused(e) else e)
    {
      refCount := refCount - 1;
      opens := opens - 1;
      if !ok {
        OnFileOpenFailed(taken);
        return;
      }
      ctx := ctx.(closeNotify := false, indexIO := 0, lastErrno := 0, ioFinish := false);
      ctx := ctx.(isFdOpen := true);
      if ctx.master {
        ctx := ctx.(fileSize := size);
        out := out + [Check(ctx.name, size)];
      } else {
        out := out + [Begin(!ctx.isStableBuf)];
      }
    }

    method WhenTransferFinish()
      modifies this`ctx, this`out
      ensures View() == Transfer.WhenTransferFinish(old(View()))
    {
      ctx := Tally(ctx);
      out := out + [Finish(true)];
    }

    /** The count is raised for the duration of the close and lowered again on both paths. */
    method ProcressFileIOFinish()
      requires Valid()
      modifies this`ctx, this`out, this`refCount
      ensures Valid() && View() == IOFinished(old(View()))
    {
      refCount := refCount + 1;
      ctx := Shut(ctx);
      if ctx.lastErrno == 0 {
        if ctx.closeNotify {
          WhenTransferFinish();
        }
        refCount := refCount - 1;
      } else {
        WhenTransferFinish();
        refCount := refCount - 1;
      }
    }

    /** After a read: whether the file is finished, and whether a further read was granted. */
    method ProcressFileIORead(result: nat, data: seq<byte>, sent: bool, address: nat, memory: bool, accepted: bool, now: int)
      returns (finished: bool, granted: bool)
      requires Valid() && NewAddress(address) && result <= ctx.indexIO && !ctx.ioFinish
      modifies this`ios, this`bufs, this`refCount, this`out, cirbuf
      ensures Valid() && |bufs| >= |old(bufs)| && bufs[..|old(bufs)|] == old(bufs)
      ensures var r := AfterRead(old(View()), result, data, sent, granted);
        finished == r.finished && View() == r.e.(ios := old(ios) + r.started)
    {
      granted := false;
      assert ios + [] == ios;
      if !sent {
        return true, false;
      }
      out := out + [Msg.Data(ctx.indexIO - result, data)];
      if result == 0 {
        return true, false;
      }
      if ctx.indexIO < ctx.fileSize {
        var ret := SimpleFileIO(ctx.indexIO, ReadSize(ctx), [], address, memory, accepted, now);
        return false, ret >= 0;
      }
      finished := true;
    }

    /** ProcressFileIO: the bookkeeping of a callback, before the request itself is given up. */
    method ProcressFileIO(io: IO, result: int, data: seq<byte>, sent: bool, address: nat, memory: bool, accepted: bool, now: int)
      returns (finished: bool, granted: bool)
      requires Valid() && NewAddress(address) && (result >= 0 && ctx.master ==> result == |data|)
      modifies this`ctx, this`ios, this`bufs, this`refCount, this`out, this`closed, cirbuf
      ensures Valid() && |bufs| >= |old(bufs)| && bufs[..|old(bufs)|] == old(bufs)
      ensures !finished ==> !ctx.ioFinish
      ensures var r := React(old(View()), io, result, data, sent, granted);
        finished == r.finished && View() == r.e.(ios := old(ios) + r.started)
    {
      granted := false;
      assert ios + [] == ios;
      if ctx.ioFinish {
        return true, false;
      }
      if Failed(ctx, io, result) {
        ctx := MarkFailed(ctx, result);
        if !ctx.master {
          closed := true;   // CommandDispatch of FINISH(0): TaskFinish
        }
        return true, false;
      }
      ctx := Count(ctx, result);
      finished, granted := ProcressCounted(result, data, sent, address, memory, accepted, now);
    }

    /** ProcressFileIORead or ProcressFileIOWrite, by role. */
    method ProcressCounted(result: nat, data: seq<byte>, sent: bool, address: nat, memory: bool, accepted: bool, now: int)
      returns (finished: bool, granted: bool)
      requires Valid() && NewAddress(address) && result <= ctx.indexIO && !ctx.ioFinish
      modifies this`ctx, this`ios, this`bufs, this`refCount, this`out, cirbuf
      ensures Valid() && |bufs| >= |old(bufs)| && bufs[..|old(bufs)|] == old(bufs)
      ensures !ctx.ioFinish
      ensures var r := Counted(old(View()), result, data, sent, granted);
        finished == r.finished && View() == r.e.(ios := old(ios) + r.started)
    {
      granted := false;
      assert ios + [] == ios;
      if ctx.master {
        finished, granted := ProcressFileIORead(result, data, sent, address, memory, accepted, now);
      } else if ctx.indexIO >= ctx.fileSize || result == 0 {
        ctx := MarkComplete(ctx);
        finished := true;
      } else {
        finished := false;
      }
    }

    /** Give up request `i`: its buffer goes back to the circle, its count is dropped. */
    method Release(i: nat, now: int)
      requires Valid() && i < |ios|
      modifies this`ios, this`bufs, this`refCount, cirbuf
      ensures Valid() && View() == old(View()).(ios := Without(old(ios), i)) && bufs == Drop(old(bufs), i)
      ensures old(bufs)[i] !in InUse(cirbuf.buffers)
    {
      DropOne(bufs, i);
      cirbuf.Free(bufs[i], now);
      refCount := refCount - 1;
      ios := Without(ios, i);
      bufs := Drop(bufs, i);
    }

    method OnFileIO(i: nat, result: int, data: seq<byte>, sent: bool, address: nat, memory: bool, accepted: bool, now: int)
      returns (granted: bool)
      requires Valid() && i < |ios| && NewAddress(address) && (result >= 0 && ctx.master ==> result == |data|)
      modifies this`ctx, this`ios, this`bufs, this`refCount, this`out, this`closed, cirbuf
      ensures Valid()
      ensures View() == Transfer.OnFileIO(old(View()), i, result, data, sent, granted)
      ensures old(bufs)[i] !in Elements(bufs)
    {
      var finished;
      finished, granted := ProcressFileIO(ios[i], result, data, sent, address, memory, accepted, now);
      ghost var r := React(old(View()), old(ios)[i], result, data, sent, granted);
      assert View() == r.e.(ios := old(ios) + r.started);
      if finished {
        ProcressFileIOFinish();
        assert View() == IOFinished(r.e).(ios := old(ios) + r.started);
      }
      WithoutJoin(old(ios), i, r.started);
      Release(i, now);
    }

    /** A message leads to an open. */
    ghost predicate AsksOpen(m: Msg, accept: bool)
      reads this
    {
      (m.Check? && accept) || (m == Finish(true) && OpensNext(ctx))
    }

    method CommandDispatch(m: Msg, accept: bool, taken: bool, address: nat, memory: bool, accepted: bool, now: int)
      returns (granted: bool)
      requires Valid() && NewAddress(address)
      modifies this`ctx, this`opens, this`ios, this`bufs, this`refCount, this`out, this`closed, this`unanswered, cirbuf
      ensures Valid()
      ensures unanswered == old(unanswered) + if old(AsksOpen(m, accept)) && !taken then 1 else 0
      ensures View() ==
        if old(AsksOpen(m, accept)) && !taken then OpenRefused(OnMessage(old(View()), m, accept, granted))
        else OnMessage(old(View()), m, accept, granted)
    {
      granted := false;
      match m
      case Check(name, size) =>
        ctx := ctx.(fileSize := size, master := false, name := name, isDir := ctx.isDir || HasSeparator(name));
        if accept {
          RequestOpen(taken);
        } else {
          closed := true;
        }
      case Begin(hugeBuf) =>
        ctx := ctx.(isStableBufSize := ctx.isStableBuf || !hugeBuf);
        var ioRet := SimpleFileIO(ctx.indexIO, ReadSize(ctx), [], address, memory, accepted, now);
        granted := ioRet >= 0;
        if ioRet < 0 {
          closed := true;
        }
      case Data(index, bytes) =>
        var ioRet := SimpleFileIO(index, |bytes|, bytes, address, memory, accepted, now);
        granted := ioRet >= 0;
        if ioRet < 0 {
          ctx := ctx.(isFdOpen := false);
          closed := true;
        }
      case Finish(more) =>
        FinishCommand(more, taken);
    }

    /** The reclaiming thread: no request loses its buffer. */
    method FreeMemory(now: int)
      requires Valid()
      modifies cirbuf
      ensures Valid() && View() == old(View()) && bufs == old(bufs)
      ensures InUse(cirbuf.buffers) == old(InUse(cirbuf.buffers))
    {
      cirbuf.FreeMemory(now);
    }

    /** ReadyForRelease is true exactly when no request is in progress, no buffer in use and every open was
        taken. No method lowers `unanswered`: a task whose open libuv refused is never ready again. */
    method ReadyForRelease() returns (ready: bool)
      requires Valid()
      ensures ready == (opens == 0 && ios == [] && InUse(cirbuf.buffers) == {} && unanswered == 0)
    {
      assert ios != [] ==> bufs[0] in Elements(bufs);
      ready := refCount == 0;
    }
  }

  lemma WithoutJoin(a: seq<IO>, i: nat, b: seq<IO>)
    requires i < |a|
    ensures Without(a + b, i) == Without(a, i) + b
  {
  }
}
