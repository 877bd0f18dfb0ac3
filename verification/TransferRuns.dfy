/** What holds in every run of the protocol of FileTransfer, whatever fails, is refused or gets lost in it. */
module TransferRuns {
  import opened Bytes
  import opened Transfer
  import opened FileTransfer
  import opened TransferFaults
  import opened TransferProgress

  ghost predicate Run(files: Files, y: System, es: seq<Event>, z: System)
    decreases |es|
  {
    if es == [] then z == y
    else Enabled(files, y, es[0]) && Run(files, Step(files, y, es[0]), es[1..], z)
  }

  lemma {:induction false} RunKeepsInv(files: Files, names: seq<Name>, y: System, es: seq<Event>, z: System)
    requires Inv(files, names, y) && Run(files, y, es, z)
    ensures Inv(files, names, z)
    decreases |es|
  {
    if es != [] {
      StepKeepsInv(files, names, y, es[0]);
      RunKeepsInv(files, names, Step(files, y, es[0]), es[1..], z);
    }
  }

  ghost predicate Reached(files: Files, names: seq<Name>, isDir: bool, es: seq<Event>, y: System)
  {
    exists init :: Init(files, names, isDir, init) && Run(files, init, es, y)
  }

  lemma ReachedInv(files: Files, names: seq<Name>, isDir: bool, es: seq<Event>, y: System)
    requires Reached(files, names, isDir, es, y)
    ensures Inv(files, names, y)
  {
    var init :| Init(files, names, isDir, init) && Run(files, init, es, y);
    InitInv(files, names, isDir, init);
    RunKeepsInv(files, names, init, es, y);
  }

  /** In every run, whatever goes wrong in it, the write callback after which the slave has closeNotify
      set and no error leaves a file equal to the source byte for byte, no request in progress at either
      end and no data on its way. */
  lemma CompletedFileIsTheSource(files: Files, names: seq<Name>, isDir: bool, es: seq<Event>, y: System, i: nat)
    requires Reached(files, names, isDir, es, y) && Enabled(files, y, Written(i))
    requires var c := Step(files, y, Written(i)).s.ctx; c.closeNotify && c.lastErrno == 0
    ensures var z := Step(files, y, Written(i));
      && z.s.ctx.name in z.disk && z.disk[z.s.ctx.name] == Content(files, z.s.ctx.name)
      && z.s.ios == [] && z.m.ios == [] && z.m.out == [] && z.s.out == [Finish(true)]
      && z.log == y.log + [Entry(z.s.ctx.name, Copied)]
  {
    ReachedInv(files, names, isDir, es, y);
    if Hushed(files, names, y) {
      SilentIsStuck(files, y, Written(i));
    } else if !Working(files, names, y) {
      HaltedCompletesNothing(files, names, y, i);
    }
    WritingMeansStreaming(files, names, y, i);
    StreamingCompletes(files, names, y, i);
  }

  lemma StreamingCompletes(files: Files, names: seq<Name>, y: System, i: nat)
    requires Common(files, names, y) && Streaming(files, names, y) && Enabled(files, y, Written(i))
    requires Writes(y, i).s.ctx.closeNotify
    ensures var z := Writes(y, i);
      && z.s.ctx.name in z.disk && z.disk[z.s.ctx.name] == Content(files, z.s.ctx.name)
      && z.s.ios == [] && z.m.ios == [] && z.m.out == [] && z.s.out == [Finish(true)]
      && z.log == y.log + [Entry(z.s.ctx.name, Copied)]
  {
    GoodWrite(y.s, i);
    LastWritten(files, names, y, i);
  }

  /** After an error or a refusal no write callback reports success any more. */
  lemma HaltedCompletesNothing(files: Files, names: seq<Name>, y: System, i: nat)
    requires Basics(files, names, y) && Halted(files, names, y) && i < |y.s.ios|
    ensures var c := Writes(y, i).s.ctx; !(c.closeNotify && c.lastErrno == 0)
  {
    if Unharmed(files, y.s, y.log) && Starved(Source(files, y), y.m, y.s) {
      StarvedWrites(Source(files, y), y.m, y.s, i);
    } else {
      LateWrite(y.s, i, y.s.ios[i].bytes);
    }
  }

  lemma WritingMeansStreaming(files: Files, names: seq<Name>, y: System, i: nat)
    requires Working(files, names, y) && i < |y.s.ios|
    ensures Common(files, names, y) && Streaming(files, names, y)
  {
  }

  lemma WorkingFacts(files: Files, names: seq<Name>, y: System)
    requires Working(files, names, y)
    ensures Basics(files, names, y)
    ensures |names| <= |y.log| + |y.m.ctx.taskQueue| + 1 <= |names| + 1
    ensures y.zeros <= 1 && (y.zeros == 1 ==> y.m.ctx.taskQueue == [] && |y.log| == |names|)
  {
  }

  /** What all phases have in common about the current file and the end of the transfer. */
  lemma PhaseFacts(files: Files, names: seq<Name>, y: System)
    requires Inv(files, names, y)
    ensures Basics(files, names, y)
    ensures |names| <= |y.log| + |y.m.ctx.taskQueue| + 1 <= |names| + 1
    ensures y.zeros <= 1 && (y.zeros == 1 ==> y.m.ctx.taskQueue == [] && |y.log| == |names|)
  {
    if Working(files, names, y) {
      WorkingFacts(files, names, y);
    }
  }

  lemma ReachedFacts(files: Files, names: seq<Name>, isDir: bool, es: seq<Event>, y: System)
    requires Reached(files, names, isDir, es, y)
    ensures Basics(files, names, y)
    ensures |names| <= |y.log| + |y.m.ctx.taskQueue| + 1 <= |names| + 1
    ensures y.zeros <= 1 && (y.zeros == 1 ==> y.m.ctx.taskQueue == [] && |y.log| == |names|)
  {
    ReachedInv(files, names, isDir, es, y);
    PhaseFacts(files, names, y);
  }

  /** In every run, files are opened once each, in queue order from the back, and the next one only
      after the one before has its outcome; copied files stay intact for the rest of the run. */
  lemma OpenedOnceCopiedIntact(files: Files, names: seq<Name>, isDir: bool, es: seq<Event>, y: System)
    requires Reached(files, names, isDir, es, y)
    ensures |y.openings| + |y.m.ctx.taskQueue| == |names|
    ensures forall k :: 0 <= k < |y.openings| ==> y.openings[k] == names[|names| - 1 - k]
    ensures |y.log| <= |y.openings| <= |y.log| + 1
    ensures forall k :: 0 <= k < |y.log| ==> y.log[k].name == names[|names| - 1 - k]
    ensures forall k :: 0 <= k < |y.log| && y.log[k].outcome.Copied? ==>
      y.log[k].name in y.disk && y.disk[y.log[k].name] == Content(files, y.log[k].name)
  {
    ReachedFacts(files, names, isDir, es, y);
  }

  // Errors, refusals and losses in a run, and what they leave behind.

  ghost predicate NoFault(es: seq<Event>)
  {
    forall i :: 0 <= i < |es| ==> !Fault(es[i])
  }

  ghost predicate SomeReadFailed(es: seq<Event>)
  {
    exists i :: 0 <= i < |es| && es[i].ReadFailed?
  }

  ghost predicate SomeWriteFailed(es: seq<Event>)
  {
    exists i :: 0 <= i < |es| && es[i].WriteFailed?
  }

  ghost predicate SomeDataRefused(es: seq<Event>)
  {
    exists i :: 0 <= i < |es| && es[i].DataRefused?
  }

  /** Something was refused or lost without either end learning of it: a next read, a piece, an open or a
      control message. */
  predicate Silencing(e: Event)
  {
    e.ReadRefused? || e.ReadUnsent? || Lost(e)
  }

  ghost predicate Silenced(es: seq<Event>)
  {
    exists i :: 0 <= i < |es| && Silencing(es[i])
  }

  lemma Unfold(es: seq<Event>)
    requires es != []
    ensures NoFault(es) <==> !Fault(es[0]) && NoFault(es[1..])
    ensures SomeReadFailed(es) <==> es[0].ReadFailed? || SomeReadFailed(es[1..])
    ensures SomeWriteFailed(es) <==> es[0].WriteFailed? || SomeWriteFailed(es[1..])
    ensures SomeDataRefused(es) <==> es[0].DataRefused? || SomeDataRefused(es[1..])
    ensures Silenced(es) <==> Silencing(es[0]) || Silenced(es[1..])
  {
    assert forall i :: 1 <= i < |es| ==> es[i] == es[1..][i - 1];
  }

  lemma FaultKinds(es: seq<Event>)
    requires NoFault(es)
    ensures !SomeReadFailed(es) && !SomeWriteFailed(es) && !SomeDataRefused(es) && !Silenced(es)
  {
  }

  lemma FaultIsNotWorking(files: Files, names: seq<Name>, y: System, e: Event)
    requires Inv(files, names, y) && Enabled(files, y, e) && (Fault(e) || !Working(files, names, y))
    ensures var x := Step(files, y, e); Inv(files, names, x) && !Working(files, names, x)
  {
    var x := Step(files, y, e);
    if Hushed(files, names, y) {
      SilentIsStuck(files, y, e);
    } else if !Working(files, names, y) {
      HaltedStep(files, names, y, e);
      HaltedIsNotWorking(files, names, x);
    } else if IOFault(e) {
      FaultStops(files, names, y, e);
      HaltedIsNotWorking(files, names, x);
    } else {
      CutStops(files, names, y, e);
      HushedIsNotWorking(files, names, x);
    }
  }

  /** A run has left the regular phases exactly when it has an error, a refusal or a loss in it. */
  lemma {:induction false} RunFaults(files: Files, names: seq<Name>, y: System, es: seq<Event>, z: System)
    requires Inv(files, names, y) && Run(files, y, es, z)
    ensures Inv(files, names, z)
    ensures Working(files, names, z) <==> Working(files, names, y) && NoFault(es)
    decreases |es|
  {
    if es != [] {
      Unfold(es);
      var x := Step(files, y, es[0]);
      if Fault(es[0]) || !Working(files, names, y) {
        FaultIsNotWorking(files, names, y, es[0]);
      } else {
        WorkingStep(files, names, y, es[0]);
      }
      RunFaults(files, names, x, es[1..], z);
    }
  }

  /** Behind an error, a refusal or a loss. */
  ghost predicate Stopped(files: Files, names: seq<Name>, y: System)
  {
    (Basics(files, names, y) && Halted(files, names, y)) || Hushed(files, names, y)
  }

  lemma {:induction false} StoppedForGood(files: Files, names: seq<Name>, y: System, es: seq<Event>, z: System)
    requires Stopped(files, names, y) && Run(files, y, es, z)
    ensures Stopped(files, names, z) && SameHistory(y, z)
    decreases |es|
  {
    if es != [] {
      if Hushed(files, names, y) {
        SilentIsStuck(files, y, es[0]);
      }
      HaltedStep(files, names, y, es[0]);
      HaltedHistory(files, names, y, es[0]);
      StoppedForGood(files, names, Step(files, y, es[0]), es[1..], z);
    }
  }

  /** An error, a refusal or a loss ends the transfer of the whole list, unlike a failed open: in whatever
      follows it, no further file is opened, copied or taken off the queue, and the slave never comes to the
      summary. Every file has its outcome by then only if the message lost was a FINISH. */
  lemma FaultIsFinal(files: Files, names: seq<Name>, isDir: bool, es: seq<Event>, y: System,
                     e: Event, rest: seq<Event>, z: System)
    requires Reached(files, names, isDir, es, y) && Enabled(files, y, e) && Fault(e) && Run(files, Step(files, y, e), rest, z)
    ensures SameHistory(y, z)
    ensures !(z.s.closed && z.zeros == 1)
    ensures |z.log| == |names| ==>
      (e == SlaveUnsent && y.s.out == [Finish(true)]) || (e == MasterUnsent && y.m.out == [Finish(false)])
  {
    ReachedInv(files, names, isDir, es, y);
    FaultLeaves(files, names, y, e);
    StoppedForGood(files, names, Step(files, y, e), rest, z);
    NoSummary(files, names, z);
    if |z.log| == |names| {
      OutcomesMeanFinish(files, names, y, e);
    }
  }

  lemma NoSummary(files: Files, names: seq<Name>, y: System)
    requires Stopped(files, names, y)
    ensures !(y.s.closed && y.zeros == 1)
  {
  }

  lemma OutcomesMeanFinish(files: Files, names: seq<Name>, y: System, e: Event)
    requires Inv(files, names, y) && Enabled(files, y, e) && Fault(e) && |y.log| == |names|
    ensures (e == SlaveUnsent && y.s.out == [Finish(true)]) || (e == MasterUnsent && y.m.out == [Finish(false)])
  {
    if Silent(y) {
      SilentIsStuck(files, y, e);
    }
    OnlyFinishLeft(files, names, y);
  }

  lemma OnlyFinishLeft(files: Files, names: seq<Name>, y: System)
    requires Inv(files, names, y) && |y.log| == |names| && !Silent(y)
    ensures Finishing(files, names, y) || Ending(files, names, y)
  {
    assert Working(files, names, y) && !Unresolved(names, y);
  }

  lemma FaultLeaves(files: Files, names: seq<Name>, y: System, e: Event)
    requires Inv(files, names, y) && Enabled(files, y, e) && Fault(e)
    ensures var x := Step(files, y, e); Stopped(files, names, x) && SameHistory(y, x)
  {
    if Hushed(files, names, y) {
      SilentIsStuck(files, y, e);
    } else if !Working(files, names, y) {
      HaltedStep(files, names, y, e);
      HaltedHistory(files, names, y, e);
    } else if IOFault(e) {
      FaultMeansStreaming(files, names, y, e);
      FaultStops(files, names, y, e);
      FaultHistory(files, names, y, e);
    } else {
      CutStops(files, names, y, e);
      CutHistory(files, y, e);
    }
  }

  lemma CutHistory(files: Files, y: System, e: Event)
    requires Enabled(files, y, e) && (Lost(e) || e.CheckRefused?)
    ensures SameHistory(y, Step(files, y, e))
  {
  }

  lemma {:induction false} RunErrnos(files: Files, names: seq<Name>, y: System, es: seq<Event>, z: System)
    requires Inv(files, names, y) && Run(files, y, es, z)
    ensures z.m.ctx.lastErrno != 0 <==> y.m.ctx.lastErrno != 0 || SomeReadFailed(es)
    ensures z.s.ctx.lastErrno != 0 <==> y.s.ctx.lastErrno != 0 || SomeWriteFailed(es)
    decreases |es|
  {
    if es != [] {
      Unfold(es);
      StepErrnos(files, names, y, es[0]);
      StepKeepsInv(files, names, y, es[0]);
      RunErrnos(files, names, Step(files, y, es[0]), es[1..], z);
    }
  }

  /** Which ends have finished their task after a run from a state behind an error or a refusal of file IO. */
  lemma {:induction false} HaltedRunClosed(files: Files, names: seq<Name>, y: System, es: seq<Event>, z: System)
    requires Basics(files, names, y) && Halted(files, names, y) && Run(files, y, es, z)
    ensures z.s.closed <==> y.s.closed || SomeWriteFailed(es) || SomeDataRefused(es)
    ensures !z.s.closed ==> (Answered(z.m, z.s) <==> Answered(y.m, y.s) && !Silenced(es))
    decreases |es|
  {
    if es != [] {
      Unfold(es);
      HaltedStep(files, names, y, es[0]);
      HaltedClosed(files, names, y, es[0]);
      HaltedRunClosed(files, names, Step(files, y, es[0]), es[1..], z);
      if !z.s.closed {
        HaltedAnswered(files, names, y, es[0]);
      }
    }
  }

  /** The same for a run that has an error, a refusal or a loss in it. */
  lemma {:induction false} FaultyRunClosed(files: Files, names: seq<Name>, y: System, es: seq<Event>, z: System)
    requires Working(files, names, y) && Run(files, y, es, z) && !NoFault(es)
    ensures SomeWriteFailed(es) || SomeDataRefused(es) ==> z.s.closed
    ensures z.s.closed ==> SomeWriteFailed(es) || SomeDataRefused(es) || !Silenced(es)
    ensures !z.s.closed ==> (Answered(z.m, z.s) <==> !Silenced(es))
    decreases |es|
  {
    Unfold(es);
    var x := Step(files, y, es[0]);
    if !Fault(es[0]) {
      WorkingStep(files, names, y, es[0]);
      FaultyRunClosed(files, names, x, es[1..], z);
    } else if IOFault(es[0]) {
      FaultThenRun(files, names, y, es[0], es[1..], z);
    } else {
      CutBegins(files, names, y, es[0]);
      if es[1..] != [] {
        SilentIsStuck(files, x, es[1]);
      }
    }
  }

  lemma FaultThenRun(files: Files, names: seq<Name>, y: System, e: Event, rest: seq<Event>, z: System)
    requires Working(files, names, y) && Enabled(files, y, e) && IOFault(e) && Run(files, Step(files, y, e), rest, z)
    ensures z.s.closed <==> e.WriteFailed? || e.DataRefused? || SomeWriteFailed(rest) || SomeDataRefused(rest)
    ensures !z.s.closed ==> (Answered(z.m, z.s) <==> !Silencing(e) && !Silenced(rest))
  {
    FaultStops(files, names, y, e);
    FaultBegins(files, names, y, e);
    HaltedRunClosed(files, names, Step(files, y, e), rest, z);
  }

  lemma FaultBegins(files: Files, names: seq<Name>, y: System, e: Event)
    requires Working(files, names, y) && Enabled(files, y, e) && IOFault(e)
    ensures var x := Step(files, y, e);
      && (x.s.closed <==> e.WriteFailed? || e.DataRefused?)
      && (!x.s.closed ==> (Answered(x.m, x.s) <==> !Silencing(e)))
  {
    FaultMeansStreaming(files, names, y, e);
    FaultClosed(files, names, y, e);
    if !Step(files, y, e).s.closed {
      FaultAnswered(files, names, y, e);
    }
  }

  lemma CutBegins(files: Files, names: seq<Name>, y: System, e: Event)
    requires Working(files, names, y) && Enabled(files, y, e) && (Lost(e) || e.CheckRefused?)
    ensures var x := Step(files, y, e); Silent(x) && (x.s.closed <==> e.CheckRefused?) && !Answered(x.m, x.s)
  {
    CutStops(files, names, y, e);
  }

  /** Both ends count exactly what the slave has: the master, which copies nothing to itself, no file. */
  ghost predicate CountersRight(files: Files, y: System)
  {
    CountsOk(files, y.s.ctx, y.log) && y.m.ctx.fileCnt == 0
  }

  lemma RightIffNoErrno(files: Files, names: seq<Name>, y: System)
    requires Inv(files, names, y)
    ensures CountersRight(files, y) <==> y.m.ctx.lastErrno == 0 && y.s.ctx.lastErrno == 0
  {
    PhaseFacts(files, names, y);
    if Working(files, names, y) {
      assert Common(files, names, y);
    }
  }

  /** In every run the counters are the number and the total size of the files copied if and only if no
      read and no write has failed: a failed file is counted too, by the end at which it failed. */
  lemma CountersRightIff(files: Files, names: seq<Name>, isDir: bool, es: seq<Event>, y: System)
    requires Reached(files, names, isDir, es, y)
    ensures CountersRight(files, y) <==> !SomeReadFailed(es) && !SomeWriteFailed(es)
  {
    var init :| Init(files, names, isDir, init) && Run(files, init, es, y);
    InitInv(files, names, isDir, init);
    RunErrnos(files, names, init, es, y);
    ReachedInv(files, names, isDir, es, y);
    RightIffNoErrno(files, names, y);
  }

  /** In every run, FINISH(0) is sent by the master at most once, when the queue is empty and every file
      has its outcome. */
  lemma OneEnd(files: Files, names: seq<Name>, isDir: bool, es: seq<Event>, y: System)
    requires Reached(files, names, isDir, es, y)
    ensures y.zeros <= 1
    ensures y.zeros == 1 ==> y.m.ctx.taskQueue == [] && |y.log| == |names|
  {
    ReachedFacts(files, names, isDir, es, y);
  }

  ghost predicate NoOpenFails(es: seq<Event>)
  {
    forall i :: 0 <= i < |es| ==> es[i] != MasterOpened(false) && es[i] != SlaveOpened(false)
  }

  ghost predicate AllCopied(log: seq<Entry>)
  {
    forall k :: 0 <= k < |log| ==> log[k].outcome.Copied?
  }

  lemma StepLogs(files: Files, y: System, e: Event)
    requires Enabled(files, y, e)
    ensures AllCopied(Step(files, y, e).log) <==> AllCopied(y.log) && e != MasterOpened(false) && e != SlaveOpened(false)
  {
    match e
    case MasterOpened(ok) => OneMore(y.log, Entry(y.m.ctx.name, MasterFailed));
    case SlaveOpened(ok) => OneMore(y.log, Entry(y.s.ctx.name, SlaveFailed));
    case Written(i) => OneMore(y.log, Entry(y.s.ctx.name, Copied));
    case _ =>
  }

  lemma OneMore(log: seq<Entry>, e: Entry)
    ensures AllCopied(log + [e]) <==> AllCopied(log) && e.outcome.Copied?
  {
    assert (log + [e])[|log|] == e;
    assert forall k :: 0 <= k < |log| ==> (log + [e])[k] == log[k];
  }

  /** Every outcome is Copied exactly when no open has failed. */
  lemma {:induction false} OnlyCopies(files: Files, y: System, es: seq<Event>, z: System)
    requires Run(files, y, es, z)
    ensures AllCopied(z.log) <==> AllCopied(y.log) && NoOpenFails(es)
    decreases |es|
  {
    if es != [] {
      assert NoOpenFails(es) <==> es[0] != MasterOpened(false) && es[0] != SlaveOpened(false) && NoOpenFails(es[1..]) by {
        assert forall i :: 1 <= i < |es| ==> es[i] == es[1..][i - 1];
      }
      StepLogs(files, y, es[0]);
      OnlyCopies(files, Step(files, y, es[0]), es[1..], z);
    }
  }

  lemma {:induction false} CopiedCount(log: seq<Entry>)
    requires AllCopied(log)
    ensures CountCopied(log) == |log|
    decreases |log|
  {
    if log != [] {
      CopiedCount(log[..|log| - 1]);
    }
  }

  lemma CopiedAtTheEnd(files: Files, names: seq<Name>, isDir: bool, es: seq<Event>, y: System)
    requires Reached(files, names, isDir, es, y) && NoOpenFails(es) && |y.log| == |names|
    ensures forall i :: 0 <= i < |names| ==> names[i] in y.disk && y.disk[names[i]] == Content(files, names[i])
    ensures AllCopied(y.log) && CountCopied(y.log) == |names|
  {
    var init :| Init(files, names, isDir, init) && Run(files, init, es, y);
    OnlyCopies(files, init, es, y);
    CopiedCount(y.log);
    ReachedFacts(files, names, isDir, es, y);
    AllOnDisk(files, names, y.disk, y.log);
  }

  lemma AllOnDisk(files: Files, names: seq<Name>, disk: Files, log: seq<Entry>)
    requires LogOk(files, names, disk, log) && AllCopied(log) && |log| == |names|
    ensures forall i :: 0 <= i < |names| ==> names[i] in disk && disk[names[i]] == Content(files, names[i])
  {
    forall i | 0 <= i < |names| ensures names[i] in disk && disk[names[i]] == Content(files, names[i]) {
      var k := |names| - 1 - i;
      assert log[k].name == names[i] && log[k].outcome.Copied?;
    }
  }

  lemma FinishSentMeansFinishing(files: Files, names: seq<Name>, y: System)
    requires Working(files, names, y) && y.s.out != [] && y.s.out[0].Finish?
    ensures Common(files, names, y) && Finishing(files, names, y)
  {
  }

  /** Each FINISH(1) the master handles either opens the next file, one fewer left, or ends the transfer. */
  lemma FinishShortensQueue(files: Files, names: seq<Name>, isDir: bool, es: seq<Event>, y: System)
    requires Reached(files, names, isDir, es, y) && Enabled(files, y, MasterTakes) && y.s.out[0] == Finish(true)
    ensures var z := Step(files, y, MasterTakes);
      if y.m.ctx.taskQueue == [] then z.zeros == 1 && z.m.out == [Finish(false)]
      else |z.m.ctx.taskQueue| == |y.m.ctx.taskQueue| - 1 && z.zeros == 0 && |z.openings| == |y.openings| + 1
  {
    ReachedInv(files, names, isDir, es, y);
    FinishSentMeansFinishing(files, names, y);
  }

  /** Data on its way to the slave is a piece of the current file, no larger than one read. */
  lemma DataIsAPiece(files: Files, names: seq<Name>, isDir: bool, es: seq<Event>, y: System, k: nat)
    requires Reached(files, names, isDir, es, y) && k < |y.m.out| && y.m.out[k].Data?
    ensures Piece(Source(files, y), y.m.out[k].index, y.m.out[k].bytes) && |y.m.out[k].bytes| <= READ_MAX
  {
    ReachedInv(files, names, isDir, es, y);
    if Working(files, names, y) {
      WorkingData(files, names, y, k);
    } else {
      assert !Hushed(files, names, y);
      HaltedData(files, names, y, k);
    }
  }

  lemma WorkingData(files: Files, names: seq<Name>, y: System, k: nat)
    requires Working(files, names, y) && k < |y.m.out| && y.m.out[k].Data?
    ensures Piece(Source(files, y), y.m.out[k].index, y.m.out[k].bytes) && |y.m.out[k].bytes| <= READ_MAX
  {
  }

  lemma HaltedData(files: Files, names: seq<Name>, y: System, k: nat)
    requires Halted(files, names, y) && k < |y.m.out| && y.m.out[k].Data?
    ensures Piece(Source(files, y), y.m.out[k].index, y.m.out[k].bytes) && |y.m.out[k].bytes| <= READ_MAX
  {
  }

  lemma FaultlessStep(files: Files, names: seq<Name>, y: System, e: Event)
    requires Inv(files, names, y) && Enabled(files, y, e) && !Fault(e)
    ensures Inv(files, names, Step(files, y, e))
    ensures Working(files, names, y) ==> Working(files, names, Step(files, y, e))
  {
    if Working(files, names, y) {
      WorkingStep(files, names, y, e);
    } else {
      StepKeepsInv(files, names, y, e);
    }
  }

  /** From every reachable state the transfer can be run to its end, if nothing has stopped it before. */
  lemma {:induction false} RunsToTheEnd(files: Files, names: seq<Name>, y: System) returns (es: seq<Event>, z: System)
    requires Inv(files, names, y)
    ensures Run(files, y, es, z) && Inv(files, names, z)
    ensures if Working(files, names, y) then Over(files, names, z) else Standstill(files, names, z) || Over(files, names, z)
    decreases |y.m.ctx.taskQueue|, Stage(y), Unread(files, y), |y.m.out|, Unwritten(y)
  {
    if Over(files, names, y) || Standstill(files, names, y) {
      es, z := [], y;
      if Standstill(files, names, y) {
        StandstillIsNotWorking(files, names, y);
      }
    } else {
      var e := NextStep(files, names, y);
      StepNearer(files, names, y, e);
      FaultlessStep(files, names, y, e);
      var rest;
      rest, z := RunsToTheEnd(files, names, Step(files, y, e));
      es := [e] + rest;
      assert es[1..] == rest;
    }
  }

  lemma StandstillIsNotWorking(files: Files, names: seq<Name>, y: System)
    requires Standstill(files, names, y)
    ensures !Working(files, names, y)
  {
    if Hushed(files, names, y) {
      HushedIsNotWorking(files, names, y);
    } else {
      HaltedIsNotWorking(files, names, y);
    }
  }

  ghost predicate Stuck(files: Files, y: System)
  {
    forall e :: !Enabled(files, y, e)
  }

  /** A stuck run is over if it has no error, refusal or loss in it, and otherwise at a standstill. */
  lemma StuckRun(files: Files, names: seq<Name>, isDir: bool, es: seq<Event>, y: System)
    requires Reached(files, names, isDir, es, y) && Stuck(files, y)
    ensures if NoFault(es) then Over(files, names, y) else Basics(files, names, y) && Standstill(files, names, y)
  {
    var init :| Init(files, names, isDir, init) && Run(files, init, es, y);
    InitInv(files, names, isDir, init);
    assert Working(files, names, init);
    RunFaults(files, names, init, es, y);
    if !Over(files, names, y) && !Standstill(files, names, y) {
      var e := NextStep(files, names, y);
      assert false;
    }
    if Standstill(files, names, y) {
      StandstillIsNotWorking(files, names, y);
    }
  }

  /** Total correctness: a run that cannot go on has dealt with every file and been finished by one of the
      ends if and only if nothing in it failed, was refused or got lost, opens that fail apart; then the
      slave has the summary, or a single file would not open. */
  lemma StuckMeansDone(files: Files, names: seq<Name>, isDir: bool, es: seq<Event>, y: System)
    requires Reached(files, names, isDir, es, y) && Stuck(files, y)
    ensures |y.log| == |names| && (y.m.closed || y.s.closed) <==> NoFault(es)
    ensures NoFault(es) && (isDir || NoOpenFails(es)) ==> y.s.closed && y.zeros == 1
  {
    StuckRun(files, names, isDir, es, y);
    ReachedDir(files, names, isDir, es, y);
    if NoFault(es) && NoOpenFails(es) {
      var init :| Init(files, names, isDir, init) && Run(files, init, es, y);
      OnlyCopies(files, init, es, y);
    }
  }

  lemma OpenKeepsDir(e: End, ok: bool, size: nat)
    requires e.opens > 0
    ensures OnFileOpen(e, ok, size).ctx.isDir == e.ctx.isDir
  {
  }

  lemma MessageKeepsDir(e: End, msg: Msg, granted: bool)
    requires !msg.Check?
    ensures OnMessage(e, msg, true, granted).ctx.isDir == e.ctx.isDir
  {
  }

  lemma IOKeepsDir(e: End, result: int, data: seq<byte>, sent: bool, granted: bool)
    requires 0 < |e.ios| && (result >= 0 && e.ctx.master ==> result == |data|)
    ensures OnFileIO(e, 0, result, data, sent, granted).ctx.isDir == e.ctx.isDir
  {
    ReactKeepsDir(e, e.ios[0], result, data, sent, granted);
    FinishedKeepsDir(React(e, e.ios[0], result, data, sent, granted).e);
  }

  lemma FinishedKeepsDir(e: End)
    ensures IOFinished(e).ctx.isDir == e.ctx.isDir
  {
  }

  lemma ReactKeepsDir(e: End, io: IO, result: int, data: seq<byte>, sent: bool, granted: bool)
    requires result >= 0 && e.ctx.master ==> result == |data|
    ensures React(e, io, result, data, sent, granted).e.ctx.isDir == e.ctx.isDir
  {
    if !e.ctx.ioFinish && !Failed(e.ctx, io, result) {
      CountedKeepsDir(e.(ctx := Count(e.ctx, result)), result, data, sent, granted);
    }
  }

  lemma CountedKeepsDir(e: End, result: nat, data: seq<byte>, sent: bool, granted: bool)
    requires result <= e.ctx.indexIO
    ensures Counted(e, result, data, sent, granted).e.ctx.isDir == e.ctx.isDir
  {
    ReadKeepsCtx(e, result, data, sent, granted);
  }

  lemma ReadKeepsCtx(e: End, result: nat, data: seq<byte>, sent: bool, granted: bool)
    requires result <= e.ctx.indexIO
    ensures AfterRead(e, result, data, sent, granted).e.ctx == e.ctx
  {
  }

  ghost predicate NoCheckForMaster(y: System)
  {
    y.s.out != [] && !y.s.closed ==> !y.s.out[0].Check?
  }

  lemma StepKeepsDir(files: Files, y: System, e: Event)
    requires Enabled(files, y, e) && NoCheckForMaster(y)
    ensures Step(files, y, e).m.ctx.isDir == y.m.ctx.isDir
  {
    match e
    case MasterOpened(ok) => OpenKeepsDir(y.m, ok, |Source(files, y)|);
    case MasterTakes => MessageKeepsDir(y.m, y.s.out[0], true);
    case BeginRefused => MessageKeepsDir(y.m, y.s.out[0], false);
    case MasterRead(n) => IOKeepsDir(y.m, n, Delivered(files, y, n), true, true);
    case ReadRefused(n) => IOKeepsDir(y.m, n, Delivered(files, y, n), true, false);
    case ReadUnsent(n) => IOKeepsDir(y.m, n, Delivered(files, y, n), false, true);
    case ReadFailed(result) => IOKeepsDir(y.m, result, [], true, true);
    case _ =>
  }

  lemma MasterGetsNoCheck(files: Files, names: seq<Name>, y: System)
    requires Inv(files, names, y)
    ensures NoCheckForMaster(y)
  {
  }

  lemma {:induction false} RunKeepsDir(files: Files, names: seq<Name>, y: System, es: seq<Event>, z: System)
    requires Run(files, y, es, z) && Inv(files, names, y)
    ensures z.m.ctx.isDir == y.m.ctx.isDir
    decreases |es|
  {
    if es != [] {
      StepKeepsInv(files, names, y, es[0]);
      MasterGetsNoCheck(files, names, y);
      StepKeepsDir(files, y, es[0]);
      RunKeepsDir(files, names, Step(files, y, es[0]), es[1..], z);
    }
  }

  lemma ReachedDir(files: Files, names: seq<Name>, isDir: bool, es: seq<Event>, y: System)
    requires Reached(files, names, isDir, es, y)
    ensures y.m.ctx.isDir == isDir
  {
    var init :| Init(files, names, isDir, init) && Run(files, init, es, y);
    InitInv(files, names, isDir, init);
    RunKeepsDir(files, names, init, es, y);
  }

  /** The transfer as a whole: if every open succeeds and nothing fails, is refused or gets lost, then a run
      that cannot go on has left the slave with every file of the list, with exactly the bytes of the
      source, and with all of them counted. */
  lemma EveryFileCopied(files: Files, names: seq<Name>, isDir: bool, es: seq<Event>, y: System)
    requires Reached(files, names, isDir, es, y) && Stuck(files, y) && NoOpenFails(es) && NoFault(es)
    ensures y.s.closed && y.zeros == 1
    ensures forall i :: 0 <= i < |names| ==> names[i] in y.disk && y.disk[names[i]] == Content(files, names[i])
    ensures y.s.ctx.fileCnt == |names| && y.s.ctx.dirSize == SumCopied(files, y.log)
  {
    StuckMeansDone(files, names, isDir, es, y);
    CopiedAtTheEnd(files, names, isDir, es, y);
    FaultKinds(es);
    CountersRightIff(files, names, isDir, es, y);
  }

  /** And only then: the slave comes to the summary with every file copied exactly in the runs without a
      failed open, an error, a refusal or a loss. */
  lemma CompleteIff(files: Files, names: seq<Name>, isDir: bool, es: seq<Event>, y: System)
    requires Reached(files, names, isDir, es, y) && Stuck(files, y)
    ensures y.s.closed && |y.log| == |names| && AllCopied(y.log) <==> NoOpenFails(es) && NoFault(es)
  {
    var init :| Init(files, names, isDir, init) && Run(files, init, es, y);
    OnlyCopies(files, init, es, y);
    StuckMeansDone(files, names, isDir, es, y);
  }

  /** A run that cannot go on while neither end has finished its task, so that nobody ever learns of it:
      exactly those in which a next read or an open was refused or a piece or a control message could not
      be sent, unless a write failed or was refused as well. Nobody looks at the results of these. */
  lemma StalledIff(files: Files, names: seq<Name>, isDir: bool, es: seq<Event>, y: System)
    requires Reached(files, names, isDir, es, y) && Stuck(files, y)
    ensures !y.m.closed && !y.s.closed <==> Silenced(es) && !SomeWriteFailed(es) && !SomeDataRefused(es)
  {
    var init :| Init(files, names, isDir, init) && Run(files, init, es, y);
    InitInv(files, names, isDir, init);
    StuckRun(files, names, isDir, es, y);
    if NoFault(es) {
      FaultKinds(es);
    } else {
      assert Working(files, names, init);
      FaultyRunClosed(files, names, init, es, y);
    }
  }

  /** The simplest of them: libuv does not take the very first open. Nothing was sent, nothing is in progress
      and nothing is logged, for any list of files. */
  lemma RefusedOpenStalls(files: Files, names: seq<Name>, isDir: bool, init: System)
    requires Init(files, names, isDir, init)
    ensures var y := Step(files, init, MasterOpenRefused);
      Reached(files, names, isDir, [MasterOpenRefused], y) && Stuck(files, y) && !y.m.closed && !y.s.closed && y.log == []
  {
    var y, es := Step(files, init, MasterOpenRefused), [MasterOpenRefused];
    assert es[1..] == [] && Run(files, y, [], y);
    assert Run(files, init, es, y);
    forall e ensures !Enabled(files, y, e) {
      SilentIsStuck(files, y, e);
    }
  }
}
