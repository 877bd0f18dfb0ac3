/** The release of a session (src/common/session.cpp): FreeSession marks it dead and starts a timer; the
    timer waits for the references to go and for the worker thread; then the libuv handles are closed,
    and an idle task deletes the session when the last close callback has run. References are taken and
    dropped by other threads at any time. */
module SessionRelease {

  /** The handles uvHandleRef counts; a session that is not over TCP has no WorkTcp. */
  datatype Handle = WorkTcp | PollMain | PipeMain

  /** A handle is none of this session's, in use (perhaps closed by someone else before the release),
      being closed with a counted close callback to come, or done with that callback behind it. */
  datatype Status = Absent | InUse(shut: bool) | Closing | Done

  datatype Handles = Handles(workTcp: Status, pollMain: Status, pipeMain: Status, uvHandleRef: int) {
    function Of(h: Handle): Status
    {
      match h
      case WorkTcp => workTcp
      case PollMain => pollMain
      case PipeMain => pipeMain
    }

    function With(h: Handle, st: Status): Handles
    {
      match h
      case WorkTcp => this.(workTcp := st)
      case PollMain => this.(pollMain := st)
      case PipeMain => this.(pipeMain := st)
    }

    /** The number of counted handles whose close callback has not run. */
    function Outstanding(): nat
    {
      Owed(workTcp) + Owed(pollMain) + Owed(pipeMain)
    }
  }

  function Owed(st: Status): nat
  {
    if st.InUse? || st.Closing? then 1 else 0
  }

  datatype State = State(
    mapped: bool,              // the session is in mapSession
    isDead: bool,
    ref: nat,
    workLoop: bool,            // the worker's poll handle has its loop
    childCleared: bool,
    freeTimer: bool,           // FreeSessionOpeate is scheduled
    childTimer: bool,          // the check of childCleared is scheduled
    idle: bool,                // FreeSessionFinally is scheduled
    handles: Handles,
    messages: nat,             // FreeSession calls of other threads on their way to the main thread
    // history
    passed: bool,              // a tick of FreeSessionOpeate found ref == 0
    awaited: bool,             // and the work loop set
    continued: nat,            // entries of FreeSessionContinue
    deleted: nat)

  datatype Event =
    | FreeSession               // on the main thread
    | FreeElsewhere             // on another thread
    | MessageArrives
    | Query                     // OP_QUERY_REF
    | Unref
    | WorkerStarts
    | WorkerClears
    | ShutEarly(h: Handle)
    | FreeTick(usbQuiet: bool)  // FreeSessionOpeate; whether host USB transfers are shut down
    | ChildTick
    | CloseCallback(h: Handle)
    | IdleTick                  // FreeSessionFinally

  /** MallocSession: two handles, three for TCP. */
  function Malloc(tcp: bool): State
  {
    var tcpHandle := if tcp then InUse(false) else Absent;
    State(true, false, 0, false, false, false, false, false,
          Handles(tcpHandle, InUse(false), InUse(false), if tcp then 3 else 2), 0, false, false, 0, 0)
  }

  predicate Enabled(s: State, e: Event)
  {
    match e
    case FreeSession => true
    case FreeElsewhere => true
    case MessageArrives => s.messages > 0
    case Query => true
    case Unref => s.ref > 0 && s.deleted == 0
    case WorkerStarts => s.deleted == 0 && !s.workLoop
    case WorkerClears => s.workLoop && s.deleted == 0
    case ShutEarly(h) => s.handles.Of(h).InUse?
    case FreeTick(_) => s.freeTimer
    case ChildTick => s.childTimer
    case CloseCallback(h) => s.handles.Of(h).Closing?
    case IdleTick => s.idle
  }

  function StartFree(s: State): State
  {
    if !s.mapped || s.isDead then s else s.(isDead := true, freeTimer := true)
  }

  /** The close callback of a counted handle. */
  function Closed(hs: Handles, h: Handle): Handles
  {
    hs.With(h, Done).(uvHandleRef := hs.uvHandleRef - 1)
  }

  /** TryCloseHandle with alwaysCallback: the callback comes later, or at once if the handle is already closing. */
  function TryClose(hs: Handles, h: Handle): Handles
  {
    if hs.Of(h) == InUse(true) then Closed(hs, h) else hs.With(h, Closing)
  }

  function CloseAll(hs: Handles): Handles
  {
    var hs := if hs.workTcp.Absent? then hs else TryClose(hs, WorkTcp);
    TryClose(TryClose(hs, PollMain), PipeMain)
  }

  function Continue(s: State): State
  {
    s.(continued := s.continued + 1, handles := CloseAll(s.handles), idle := true)
  }

  function OnFreeTick(s: State, usbQuiet: bool): State
  {
    if !usbQuiet || s.ref > 0 then s
    else
      var s := s.(passed := true, awaited := s.workLoop);
      (if s.workLoop then s.(childTimer := true) else Continue(s)).(freeTimer := false)
  }

  function OnChildTick(s: State): State
  {
    if !s.childCleared then s else Continue(s.(childTimer := false))
  }

  function OnIdleTick(s: State): State
  {
    if s.handles.uvHandleRef > 0 then s else s.(mapped := false, deleted := s.deleted + 1, idle := false)
  }

  function Step(s: State, e: Event): State
    requires Enabled(s, e)
  {
    match e
    case FreeSession => StartFree(s)
    case FreeElsewhere => s.(messages := s.messages + 1)
    case MessageArrives => StartFree(s.(messages := s.messages - 1))
    case Query => if s.mapped then s.(ref := s.ref + 1) else s
    case Unref => s.(ref := s.ref - 1)
    case WorkerStarts => s.(workLoop := true)
    case WorkerClears => s.(childCleared := true)
    case ShutEarly(h) => s.(handles := s.handles.With(h, InUse(true)))
    case FreeTick(usbQuiet) => OnFreeTick(s, usbQuiet)
    case ChildTick => OnChildTick(s)
    case CloseCallback(h) => s.(handles := Closed(s.handles, h))
    case IdleTick => OnIdleTick(s)
  }

  predicate Counted(hs: Handles)
  {
    hs.uvHandleRef == hs.Outstanding() && !hs.pollMain.Absent? && !hs.pipeMain.Absent?
  }

  /** No handle, respectively every handle, has been asked to close. */
  predicate AllInUse(hs: Handles)
  {
    (hs.workTcp.InUse? || hs.workTcp.Absent?) && hs.pollMain.InUse? && hs.pipeMain.InUse?
  }

  predicate AllAsked(hs: Handles)
  {
    !hs.workTcp.InUse? && !hs.pollMain.InUse? && !hs.pipeMain.InUse?
  }

  /** Where the release stands: not begun, waiting, closing handles, or over. */
  predicate Stage(s: State)
  {
    if !s.isDead then !s.freeTimer && !s.childTimer && s.continued == 0
    else if s.freeTimer then !s.childTimer && s.continued == 0
    else if s.childTimer then s.continued == 0 && s.passed && s.awaited
    else s.continued == 1 && s.passed && (s.awaited ==> s.childCleared)
  }

  predicate Inv(s: State)
  {
    && Stage(s) && (s.awaited ==> s.workLoop) && Counted(s.handles)
    && (s.continued == 0 ==> AllInUse(s.handles) && !s.idle && s.deleted == 0)
    && (s.continued == 1 ==> AllAsked(s.handles) && s.deleted == if s.idle then 0 else 1)
    && (s.deleted == 1 ==> s.handles.uvHandleRef == 0)
    && s.mapped == (s.deleted == 0)
  }

  lemma MallocInv(tcp: bool)
    ensures Inv(Malloc(tcp))
  {
  }

  lemma ClosedKeeps(hs: Handles, h: Handle)
    requires Counted(hs) && Owed(hs.Of(h)) == 1
    ensures Counted(Closed(hs, h)) && Closed(hs, h).Of(h).Done? && Closed(hs, h).Outstanding() == hs.Outstanding() - 1
    ensures AllAsked(hs) ==> AllAsked(Closed(hs, h))
  {
    match h
    case WorkTcp =>
    case PollMain =>
    case PipeMain =>
  }

  lemma ShutKeeps(hs: Handles, h: Handle)
    requires Counted(hs) && AllInUse(hs) && hs.Of(h).InUse?
    ensures Counted(hs.With(h, InUse(true))) && AllInUse(hs.With(h, InUse(true)))
  {
    match h
    case WorkTcp =>
    case PollMain =>
    case PipeMain =>
  }

  lemma TryCloseKeeps(hs: Handles, h: Handle)
    requires Counted(hs) && hs.Of(h).InUse?
    ensures Counted(TryClose(hs, h)) && !TryClose(hs, h).Of(h).InUse?
    ensures TryClose(hs, h).Of(h) == if hs.Of(h).shut then Done else Closing
  {
    match h
    case WorkTcp =>
    case PollMain =>
    case PipeMain =>
  }

  /** Every handle of the session is closing, or done if someone had closed it before. */
  lemma CloseAllKeeps(hs: Handles)
    requires Counted(hs) && AllInUse(hs)
    ensures Counted(CloseAll(hs)) && AllAsked(CloseAll(hs))
    ensures forall h :: CloseAll(hs).Of(h) == match hs.Of(h) case InUse(shut) => (if shut then Done else Closing) case st => st
  {
  }

  lemma OwedBy(hs: Handles, h: Handle)
    requires Counted(hs)
    ensures hs.Of(h).Closing? ==> hs.uvHandleRef > 0 && !AllInUse(hs)
  {
    match h
    case WorkTcp =>
    case PollMain =>
    case PipeMain =>
  }

  lemma StepKeepsInv(s: State, e: Event)
    requires Inv(s) && Enabled(s, e)
    ensures Inv(Step(s, e))
  {
    match e
    case FreeTick(usbQuiet) =>
      if usbQuiet && s.ref == 0 && !s.workLoop {
        CloseAllKeeps(s.handles);
      }
    case ChildTick =>
      if s.childCleared {
        CloseAllKeeps(s.handles);
      }
    case CloseCallback(h) =>
      OwedBy(s.handles, h);
      ClosedKeeps(s.handles, h);
    case ShutEarly(h) => ShutKeeps(s.handles, h);
    case _ =>
  }

  ghost predicate Run(s: State, es: seq<Event>, t: State)
    decreases |es|
  {
    if es == [] then t == s else Enabled(s, es[0]) && Run(Step(s, es[0]), es[1..], t)
  }

  lemma {:induction false} RunKeepsInv(s: State, es: seq<Event>, t: State)
    requires Inv(s) && Run(s, es, t)
    ensures Inv(t)
    decreases |es|
  {
    if es != [] {
      StepKeepsInv(s, es[0]);
      RunKeepsInv(Step(s, es[0]), es[1..], t);
    }
  }

  /** In every run, however often FreeSession is called: FreeSessionContinue is entered at most once, and
      only when the session is dead, a tick found no reference, and the worker is cleared if its loop was
      set; uvHandleRef is the number of counted handles whose close callback has not run; the session is
      unmapped and deleted together, once, when that number is 0, and then nothing is scheduled for it. */
  lemma ReleaseAlways(tcp: bool, es: seq<Event>, s: State)
    requires Run(Malloc(tcp), es, s)
    ensures s.continued <= 1
    ensures s.continued == 1 ==> s.isDead && s.passed && (s.awaited ==> s.childCleared)
    ensures s.handles.uvHandleRef == s.handles.Outstanding()
    ensures s.deleted <= 1 && s.mapped == (s.deleted == 0)
    ensures s.deleted == 1 ==>
      && s.continued == 1 && s.handles.uvHandleRef == 0
      && !s.freeTimer && !s.childTimer && !s.idle && forall h :: !s.handles.Of(h).Closing?
  {
    MallocInv(tcp);
    RunKeepsInv(Malloc(tcp), es, s);
  }

  /** A finished release stays finished: no later event touches the session. */
  lemma DeletedForGood(s: State, e: Event)
    requires Inv(s) && s.deleted == 1 && Enabled(s, e)
    ensures Step(s, e) == s.(messages := Step(s, e).messages)
  {
  }

  // What a run has asked for, and what became of it.

  predicate Asks(e: Event) { e.FreeSession? || e.FreeElsewhere? }

  ghost predicate Asked(es: seq<Event>)
  {
    exists i :: 0 <= i < |es| && Asks(es[i])
  }

  ghost predicate Happened(es: seq<Event>, e: Event)
  {
    e in es
  }

  /** What the events of a run leave in the fields they are about. */
  ghost predicate Follows(s: State, es: seq<Event>, t: State)
  {
    && (t.isDead || t.messages > 0 <==> s.isDead || s.messages > 0 || Asked(es))
    && (t.workLoop <==> s.workLoop || Happened(es, WorkerStarts))
    && (t.childCleared <==> s.childCleared || Happened(es, WorkerClears))
    && (t.handles.workTcp.Absent? <==> s.handles.workTcp.Absent?)
    && (t.continued == 0 ==> s.continued == 0 && t.handles.uvHandleRef == s.handles.uvHandleRef)
    && (t.continued == 0 ==> forall h :: t.handles.Of(h) == InUse(true) <==> s.handles.Of(h) == InUse(true) || Happened(es, ShutEarly(h)))
  }

  lemma StepDies(s: State, e: Event)
    requires Inv(s) && Enabled(s, e)
    ensures var t := Step(s, e);
      && (t.isDead || t.messages > 0 <==> s.isDead || s.messages > 0 || Asks(e))
      && (t.workLoop <==> s.workLoop || e == WorkerStarts) && (t.childCleared <==> s.childCleared || e == WorkerClears)
  {
    match e
    case FreeTick(usbQuiet) => FreeTickKeeps(s, usbQuiet);
    case ChildTick => ChildTickKeeps(s);
    case _ =>
  }

  lemma FreeTickKeeps(s: State, usbQuiet: bool)
    ensures var t := OnFreeTick(s, usbQuiet);
      t.ref == s.ref && t.isDead == s.isDead && t.messages == s.messages && t.workLoop == s.workLoop && t.childCleared == s.childCleared
  {
  }

  lemma ChildTickKeeps(s: State)
    ensures var t := OnChildTick(s);
      t.ref == s.ref && t.isDead == s.isDead && t.messages == s.messages && t.workLoop == s.workLoop && t.childCleared == s.childCleared
  {
  }

  lemma StepShuts(s: State, e: Event)
    requires Inv(s) && Enabled(s, e)
    ensures var t := Step(s, e);
      && (t.handles.workTcp.Absent? <==> s.handles.workTcp.Absent?)
      && (t.continued == 0 ==> s.continued == 0 && t.handles.uvHandleRef == s.handles.uvHandleRef)
      && (t.continued == 0 ==> forall h :: t.handles.Of(h) == InUse(true) <==> s.handles.Of(h) == InUse(true) || e == ShutEarly(h))
  {
    match e
    case CloseCallback(h) => OwedBy(s.handles, h);
    case FreeTick(_) =>
    case ChildTick =>
    case _ =>
  }

  lemma AskedStep(es: seq<Event>)
    requires es != []
    ensures Asked(es) <==> Asks(es[0]) || Asked(es[1..])
    ensures forall e :: Happened(es, e) <==> e == es[0] || Happened(es[1..], e)
  {
    assert forall i :: 1 <= i < |es| ==> es[i] == es[1..][i - 1];
  }

  lemma {:induction false} RunFollows(s: State, es: seq<Event>, t: State)
    requires Inv(s) && Run(s, es, t)
    ensures Follows(s, es, t)
    decreases |es|
  {
    if es != [] {
      AskedStep(es);
      StepKeepsInv(s, es[0]);
      StepDies(s, es[0]);
      StepShuts(s, es[0]);
      RunFollows(Step(s, es[0]), es[1..], t);
    }
  }

  /** In every run: the session is dead, or a message that will make it so is on its way, if and only if
      someone has called FreeSession, on whichever thread; so with no message on its way it is dead. */
  lemma AskedIsDead(tcp: bool, es: seq<Event>, s: State)
    requires Run(Malloc(tcp), es, s)
    ensures s.isDead || s.messages > 0 <==> Asked(es)
    ensures Asked(es) && s.messages == 0 ==> s.isDead
  {
    MallocInv(tcp);
    RunFollows(Malloc(tcp), es, s);
  }

  /** In every run: the worker counts as started and as cleared exactly once it has been, a TCP session has
      three handles and any other two, all counted until the release closes them, and a handle counts as
      closed by someone else exactly when it was. */
  lemma HandlesAlways(tcp: bool, es: seq<Event>, s: State)
    requires Run(Malloc(tcp), es, s)
    ensures s.workLoop <==> WorkerStarts in es
    ensures s.childCleared <==> WorkerClears in es
    ensures s.handles.workTcp.Absent? <==> !tcp
    ensures s.continued == 0 ==> s.handles.uvHandleRef == (if tcp then 3 else 2)
    ensures s.continued == 0 ==> forall h :: s.handles.Of(h) == InUse(true) <==> ShutEarly(h) in es
  {
    MallocInv(tcp);
    RunFollows(Malloc(tcp), es, s);
    if s.continued == 0 {
      forall h ensures s.handles.Of(h) == InUse(true) <==> ShutEarly(h) in es {
        assert Malloc(tcp).handles.Of(h) != InUse(true);
        assert Happened(es, ShutEarly(h)) <==> ShutEarly(h) in es;
      }
    }
  }

  /** References taken from a mapped session, and dropped, in a whole run. */
  function AllTaken(s: State, es: seq<Event>): nat
    requires Possible(s, es)
    decreases |es|
  {
    if es == [] then 0 else (if es[0].Query? && s.mapped then 1 else 0) + AllTaken(Step(s, es[0]), es[1..])
  }

  function AllDropped(es: seq<Event>): nat
  {
    if es == [] then 0 else (if es[0].Unref? then 1 else 0) + AllDropped(es[1..])
  }

  lemma StepRef(s: State, e: Event)
    requires Enabled(s, e)
    ensures Step(s, e).ref == s.ref + (if e.Query? && s.mapped then 1 else 0) - (if e.Unref? then 1 else 0)
  {
    match e
    case FreeTick(usbQuiet) => FreeTickKeeps(s, usbQuiet);
    case ChildTick => ChildTickKeeps(s);
    case _ =>
  }

  lemma {:induction false} RunRef(s: State, es: seq<Event>, t: State)
    requires Run(s, es, t) && Possible(s, es)
    ensures t.ref == s.ref + AllTaken(s, es) - AllDropped(es)
    decreases |es|
  {
    if es != [] {
      StepRef(s, es[0]);
      RunRef(Step(s, es[0]), es[1..], t);
    }
  }

  /** In every run ref is the references taken less those dropped, from the start of the run. */
  lemma RefAlways(tcp: bool, es: seq<Event>, s: State)
    requires Run(Malloc(tcp), es, s)
    ensures Possible(Malloc(tcp), es) && s.ref == AllTaken(Malloc(tcp), es) - AllDropped(es)
  {
    RunPossible(Malloc(tcp), es, s);
    RunRef(Malloc(tcp), es, s);
  }

  /** References taken, and dropped, after the tick that found none. */
  function Taken(s: State, es: seq<Event>): nat
    requires Possible(s, es)
    decreases |es|
  {
    if es == [] then 0
    else (if s.passed && es[0].Query? && s.mapped then 1 else 0) + Taken(Step(s, es[0]), es[1..])
  }

  function Dropped(s: State, es: seq<Event>): nat
    requires Possible(s, es)
    decreases |es|
  {
    if es == [] then 0
    else (if s.passed && es[0].Unref? then 1 else 0) + Dropped(Step(s, es[0]), es[1..])
  }

  predicate Possible(s: State, es: seq<Event>)
    decreases |es|
  {
    es == [] || (Enabled(s, es[0]) && Possible(Step(s, es[0]), es[1..]))
  }

  lemma {:induction false} RunPossible(s: State, es: seq<Event>, t: State)
    requires Run(s, es, t)
    ensures Possible(s, es)
    decreases |es|
  {
    if es != [] {
      RunPossible(Step(s, es[0]), es[1..], t);
    }
  }

  /** The tick passes with no reference left, and from then on only these events change the number. */
  lemma StepBalance(s: State, e: Event)
    requires Enabled(s, e)
    ensures var t := Step(s, e);
      && (s.passed ==> t.passed)
      && (s.passed ==> t.ref == s.ref + (if e.Query? && s.mapped then 1 else 0) - (if e.Unref? then 1 else 0))
      && (!s.passed && t.passed ==> t.ref == 0)
  {
    match e
    case FreeTick(usbQuiet) => FreeTickPasses(s, usbQuiet);
    case ChildTick => assert OnChildTick(s).ref == s.ref && OnChildTick(s).passed == s.passed;
    case _ =>
  }

  lemma FreeTickPasses(s: State, usbQuiet: bool)
    ensures var t := OnFreeTick(s, usbQuiet);
      t.ref == s.ref && (s.passed ==> t.passed) && (t.passed && !s.passed ==> s.ref == 0)
  {
  }

  lemma FreeTickMeans(s: State, usbQuiet: bool)
    requires Inv(s) && s.freeTimer
    ensures var t := OnFreeTick(s, usbQuiet);
      && Inv(t) && (t.freeTimer <==> !usbQuiet || t.ref > 0)
      && t.continued == (if t.freeTimer || t.workLoop then 0 else 1)
      && (!t.freeTimer ==> t.passed && t.ref == 0 && (t.workLoop ==> t.childTimer))
  {
    StepKeepsInv(s, FreeTick(usbQuiet));
  }

  lemma {:induction false} RunBalance(s: State, es: seq<Event>, t: State)
    requires Run(s, es, t) && Possible(s, es)
    ensures s.passed ==> t.passed && t.ref == s.ref + Taken(s, es) - Dropped(s, es)
    ensures !s.passed && t.passed ==> t.ref == Taken(s, es) - Dropped(s, es)
    ensures !t.passed ==> Taken(s, es) == Dropped(s, es) == 0
    decreases |es|
  {
    if es != [] {
      StepBalance(s, es[0]);
      RunBalance(Step(s, es[0]), es[1..], t);
    }
  }

  /** In every run, from the tick that found no reference on, the references are exactly those taken and not
      dropped since. So the session is deleted without a reference if and only if each one taken after
      that tick has been dropped, and in particular if none was taken. */
  lemma RefAtDeletionIff(tcp: bool, es: seq<Event>, s: State)
    requires Run(Malloc(tcp), es, s)
    ensures Possible(Malloc(tcp), es)
    ensures s.passed ==> s.ref == Taken(Malloc(tcp), es) - Dropped(Malloc(tcp), es)
    ensures s.deleted == 1 ==> (s.ref == 0 <==> Taken(Malloc(tcp), es) == Dropped(Malloc(tcp), es))
    ensures s.deleted == 1 && Taken(Malloc(tcp), es) == 0 ==> s.ref == 0
  {
    RunPossible(Malloc(tcp), es, s);
    RunBalance(Malloc(tcp), es, s);
    ReleaseAlways(tcp, es, s);
  }

  /** Such a run: a reference taken after the tick that found none is still there at the deletion. */
  lemma RefAtDeletion() returns (es: seq<Event>, s: State)
    ensures Run(Malloc(false), es, s) && s.deleted == 1 && s.ref == 1
  {
    var s0 := Malloc(false);
    var s1 := Step(s0, FreeSession);
    var s2 := Step(s1, FreeTick(true));
    var s3 := Step(s2, Query);
    assert s3.isDead && s3.ref == 1;
    MallocInv(false);
    StepKeepsInv(s0, FreeSession);
    StepKeepsInv(s1, FreeTick(true));
    StepKeepsInv(s2, Query);
    es, s := ReleaseCompletes(s3);
    RunCons(s2, Query, es, s);
    RunCons(s1, FreeTick(true), [Query] + es, s);
    RunCons(s0, FreeSession, [FreeTick(true)] + ([Query] + es), s);
    es := [FreeSession] + ([FreeTick(true)] + ([Query] + es));
  }

  lemma RunCons(s: State, e: Event, es: seq<Event>, t: State)
    requires Enabled(s, e) && Run(Step(s, e), es, t)
    ensures Run(s, [e] + es, t)
  {
    assert ([e] + es)[1..] == es;
  }

  function StageLeft(s: State): nat
  {
    if s.freeTimer then 3 else if s.childTimer then 2 else if s.idle then 1 else 0
  }

  /** The next step of the release. */
  lemma NextEvent(s: State) returns (e: Event)
    requires Inv(s) && s.isDead && s.deleted == 0
    ensures Enabled(s, e) && Step(s, e).isDead && (!s.freeTimer ==> Step(s, e).ref == s.ref)
    ensures var t := Step(s, e);
      || StageLeft(t) < StageLeft(s)
      || (StageLeft(t) == StageLeft(s) && t.ref < s.ref)
      || (StageLeft(t) == StageLeft(s) && t.ref == s.ref && t.childCleared && !s.childCleared)
      || (StageLeft(t) == StageLeft(s) && t.ref == s.ref && t.childCleared == s.childCleared
          && t.handles.Outstanding() < s.handles.Outstanding())
    ensures !s.freeTimer ==> !Step(s, e).freeTimer
  {
    if s.freeTimer {
      e := if s.ref > 0 then Unref else FreeTick(true);
    } else if s.childTimer {
      e := if s.childCleared then ChildTick else WorkerClears;
    } else if s.handles.uvHandleRef > 0 {
      var h := SomeClosing(s.handles);
      e := CloseCallback(h);
    } else {
      e := IdleTick;
    }
  }

  /** Once FreeSession has been called, on whichever thread, the release can always be completed: no state
      is stuck. References held when the handles are being closed stay as they are. */
  lemma ReleaseCompletes(s: State) returns (es: seq<Event>, t: State)
    requires Inv(s) && (s.isDead || s.messages > 0)
    ensures Run(s, es, t) && t.deleted == 1
    ensures s.isDead && !s.freeTimer ==> t.ref == s.ref
  {
    if s.isDead {
      es, t := DeadCompletes(s);
    } else {
      StepKeepsInv(s, MessageArrives);
      es, t := DeadCompletes(Step(s, MessageArrives));
      RunCons(s, MessageArrives, es, t);
      es := [MessageArrives] + es;
    }
  }

  lemma {:induction false} DeadCompletes(s: State) returns (es: seq<Event>, t: State)
    requires Inv(s) && s.isDead
    ensures Run(s, es, t) && t.deleted == 1
    ensures !s.freeTimer ==> t.ref == s.ref
    decreases StageLeft(s), s.ref, !s.childCleared, s.handles.Outstanding()
  {
    if s.deleted != 0 {
      es, t := [], s;
    } else {
      var e := NextEvent(s);
      StepKeepsInv(s, e);
      var rest;
      rest, t := DeadCompletes(Step(s, e));
      es := [e] + rest;
      RunCons(s, e, rest, t);
    }
  }

  lemma SomeClosing(hs: Handles) returns (h: Handle)
    requires Counted(hs) && AllAsked(hs) && hs.uvHandleRef > 0
    ensures hs.Of(h).Closing?
  {
    h := if hs.workTcp.Closing? then WorkTcp else if hs.pollMain.Closing? then PollMain else PipeMain;
  }

  /** The session object and the callbacks that release it, all of which keep the invariant. */
  class Session {
    var mapped: bool
    var isDead: bool
    var ref: nat
    var workLoop: bool
    var childCleared: bool
    var freeTimer: bool
    var childTimer: bool
    var idle: bool
    var handles: Handles
    var messages: nat
    ghost var passed: bool
    ghost var awaited: bool
    ghost var continued: nat
    ghost var deleted: nat

    ghost function View(): State
      reads this
    {
      State(mapped, isDead, ref, workLoop, childCleared, freeTimer, childTimer, idle, handles, messages,
            passed, awaited, continued, deleted)
    }

    ghost predicate Valid()
      reads this
    {
      Inv(View())
    }

    constructor (tcp: bool)
      ensures Valid() && View() == Malloc(tcp)
    {
      mapped, isDead, ref, workLoop, childCleared := true, false, 0, false, false;
      freeTimer, childTimer, idle, messages := false, false, false, 0;
      handles := Handles(if tcp then InUse(false) else Absent, InUse(false), InUse(false), if tcp then 3 else 2);
      passed, awaited, continued, deleted := false, false, 0, 0;
      new;
      MallocInv(tcp);
    }

    /** Only the first call on a mapped session starts its release; every other one changes nothing. */
    method FreeSession()
      requires Valid()
      modifies this`isDead, this`freeTimer
      ensures Valid() && View() == Step(old(View()), Event.FreeSession)
      ensures mapped ==> isDead && StageLeft(View()) > 0
      ensures old(isDead) ==> View() == old(View())
      ensures !old(isDead) ==> freeTimer && continued == deleted == 0
    {
      StepKeepsInv(View(), Event.FreeSession);
      if !mapped || isDead {
        return;
      }
      isDead := true;
      freeTimer := true;
    }

    /** FreeSession on another thread: nothing but a message to the main thread. */
    method PushAsyncMessage()
      requires Valid()
      modifies this`messages
      ensures Valid() && View() == Step(old(View()), FreeElsewhere)
      ensures messages > 0
    {
      StepKeepsInv(View(), FreeElsewhere);
      messages := messages + 1;
    }

    /** The message on the main thread does what FreeSession does there. */
    method AsyncMainLoopTask()
      requires Valid() && messages > 0
      modifies this`messages, this`isDead, this`freeTimer
      ensures Valid() && View() == Step(old(View()), MessageArrives)
      ensures mapped ==> isDead && StageLeft(View()) > 0
      ensures !old(isDead) ==> freeTimer && continued == deleted == 0
    {
      messages := messages - 1;
      FreeSession();
    }

    /** The tick goes on waiting while there is a reference; otherwise it is the last one, and the handles
        are closed now, for the first time, or the worker is waited for. */
    method FreeSessionOpeate(usbQuiet: bool)
      requires Valid() && freeTimer
      modifies this
      ensures Valid() && View() == Step(old(View()), FreeTick(usbQuiet))
      ensures freeTimer <==> !usbQuiet || ref > 0
      ensures continued == (if freeTimer || workLoop then 0 else 1) && (!freeTimer ==> passed && ref == 0)
      ensures !freeTimer && workLoop ==> childTimer
    {
      FreeTickMeans(View(), usbQuiet);
      if !usbQuiet {
        return;
      }
      if ref > 0 {
        return;
      }
      passed, awaited := true, workLoop;
      if workLoop {
        childTimer := true;
      } else {
        FreeSessionContinue();
      }
      freeTimer := false;
      assert View() == OnFreeTick(old(View()), usbQuiet);
    }

    /** The handles are closed once the worker has cleared its tasks, for the first time, and not before. */
    method CheckFreeSessionContinue()
      requires Valid() && childTimer
      modifies this
      ensures Valid() && View() == Step(old(View()), ChildTick)
      ensures continued == (if childCleared then 1 else 0) && childTimer == !childCleared
    {
      StepKeepsInv(View(), ChildTick);
      if !childCleared {
        return;
      }
      childTimer := false;
      FreeSessionContinue();
    }

    /** Entered once only; afterwards every handle has its close callback behind it or to come. */
    method FreeSessionContinue()
      requires continued == 0 && Counted(handles) && AllInUse(handles)
      modifies this`handles, this`idle, this`continued
      ensures View() == Continue(old(View()))
      ensures continued == 1 && idle && Counted(handles) && AllAsked(handles)
    {
      CloseAllKeeps(handles);
      continued := continued + 1;
      if !handles.workTcp.Absent? {
        TryCloseHandle(WorkTcp);
      }
      TryCloseHandle(PollMain);
      TryCloseHandle(PipeMain);
      idle := true;
    }

    /** One more handle asked to close; the count falls exactly when its callback runs at once, because
        someone had closed the handle before. */
    method TryCloseHandle(h: Handle)
      requires Counted(handles) && handles.Of(h).InUse?
      modifies this`handles
      ensures handles == TryClose(old(handles), h) && Counted(handles)
      ensures handles.Of(h) == if old(handles.Of(h).shut) then Done else Closing
      ensures handles.uvHandleRef == old(handles.uvHandleRef) - if handles.Of(h).Done? then 1 else 0
    {
      TryCloseKeeps(handles, h);
      if handles.Of(h).shut {
        CloseCallback(h);
      } else {
        handles := handles.With(h, Closing);
      }
    }

    /** The count stays that of the handles whose callback has not run, and none is counted down twice. */
    method CloseCallback(h: Handle)
      requires Counted(handles) && Owed(handles.Of(h)) == 1
      modifies this`handles
      ensures handles == Closed(old(handles), h) && Counted(handles)
      ensures handles.Of(h).Done? && handles.uvHandleRef == old(handles.uvHandleRef) - 1
    {
      ClosedKeeps(handles, h);
      handles := handles.With(h, Done).(uvHandleRef := handles.uvHandleRef - 1);
    }

    /** The event loop runs the close callback of a handle that is closing. */
    method HandleClosed(h: Handle)
      requires Valid() && handles.Of(h).Closing?
      modifies this`handles
      ensures Valid() && View() == Step(old(View()), Event.CloseCallback(h))
      ensures handles.uvHandleRef == old(handles.uvHandleRef) - 1 >= 0
    {
      StepKeepsInv(View(), Event.CloseCallback(h));
      CloseCallback(h);
    }

    /** The session is deleted, once, exactly when the close callbacks of all its handles have run. */
    method FreeSessionFinally()
      requires Valid() && idle
      modifies this`mapped, this`idle, this`deleted
      ensures Valid() && View() == Step(old(View()), IdleTick)
      ensures deleted == 1 <==> forall h :: handles.Of(h).Done? || handles.Of(h).Absent?
      ensures deleted == 1 ==> handles.uvHandleRef == 0 && !mapped && StageLeft(View()) == 0
      ensures deleted == 0 ==> View() == old(View())
    {
      StepKeepsInv(View(), IdleTick);
      AllDone(handles);
      if handles.uvHandleRef > 0 {
        return;
      }
      mapped := false;
      deleted := deleted + 1;
      idle := false;
    }
  }

  lemma AllDone(hs: Handles)
    requires Counted(hs) && AllAsked(hs)
    ensures hs.uvHandleRef == 0 <==> forall h :: hs.Of(h).Done? || hs.Of(h).Absent?
  {
    if hs.uvHandleRef > 0 {
      var h := SomeClosing(hs);
    }
  }
}
