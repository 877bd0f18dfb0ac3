/** Data flow of TCP and unix-socket forwards (src/common/forward.cpp): the end that accepts a client
    (the master) and the end that connects to the target (the slave), with a FIFO link each way. Any
    number of connections, each with its own id. */
module ForwardFlow {
  import opened Bytes

  type Id = nat

  datatype Msg = ActiveSlave(x: Id) | ActiveMaster(x: Id) | Data(x: Id, bytes: seq<byte>) | FreeContext(x: Id)

  /** A context in the map of one end. */
  datatype Point = Point(connected: bool, reading: bool, finish: bool)

  type Bytewise = map<Id, seq<byte>>

  datatype State = State(
    m: map<Id, Point>, s: map<Id, Point>, toSlave: seq<Msg>, toMaster: seq<Msg>,
    // history: ids accepted, taken up by the slave, connected there, begun at the master
    used: set<Id>, asked: set<Id>, connected: set<Id>, begun: set<Id>,
    // bytes read from and written to the sockets
    fromClient: Bytewise, toTarget: Bytewise, fromTarget: Bytewise, toClient: Bytewise,
    // of the bytes read, those that SendToTask took
    sentClient: Bytewise, sentTarget: Bytewise)

  const INITIAL := State(map[], map[], [], [], {}, {}, {}, {}, map[], map[], map[], map[], map[], map[])

  const SEND_MAX: nat := 2 * 60 * 1024   // GetMaxBufSizeStable() * BUF_MULTIPLE

  datatype Event =
    | Accept(x: Id)
    | MasterTakes(ok: bool)             // whether uv_read_start or uv_write succeeds
    | SlaveTakes(ok: bool)
    | Connected(x: Id, ok: bool, begins: bool)      // whether the target connected and ACTIVE_MASTER was sent
    | MasterReads(x: Id, bytes: seq<byte>, sent: bool)
    | SlaveReads(x: Id, bytes: seq<byte>, sent: bool)
    | MasterFrees(x: Id, notify: bool)
    | SlaveFrees(x: Id, notify: bool)
    | MasterForgets(x: Id)              // the deferred deletion
    | SlaveForgets(x: Id)
    | MasterUnsent                      // SendToTask failed for the request or notification last handed to it
    | SlaveUnsent

  function Got(b: Bytewise, x: Id): seq<byte>
  {
    if x in b then b[x] else []
  }

  function More(b: Bytewise, x: Id, bytes: seq<byte>): Bytewise
  {
    b[x := Got(b, x) + bytes]
  }

  predicate Alive(ps: map<Id, Point>, x: Id)
  {
    x in ps && !ps[x].finish
  }

  function Finished(ps: map<Id, Point>, x: Id): map<Id, Point>
    requires x in ps
  {
    ps[x := ps[x].(finish := true, reading := false)]
  }

  function FreeMaster(y: State, x: Id, notify: bool): State
  {
    if !Alive(y.m, x) then y
    else y.(m := Finished(y.m, x), toSlave := y.toSlave + if notify then [FreeContext(x)] else [])
  }

  function FreeSlave(y: State, x: Id, notify: bool): State
  {
    if !Alive(y.s, x) then y
    else y.(s := Finished(y.s, x), toMaster := y.toMaster + if notify then [FreeContext(x)] else [])
  }

  /** ForwardCommandDispatch at the master. */
  function AtMaster(y: State, msg: Msg, ok: bool): State
  {
    match msg
    case ActiveMaster(x) =>
      if !Alive(y.m, x) then y
      else if ok then y.(m := y.m[x := y.m[x].(reading := true)], begun := y.begun + {x})
      else FreeMaster(y, x, true)
    case Data(x, bytes) =>
      if !Alive(y.m, x) then y
      else if ok then y.(toClient := More(y.toClient, x, bytes))
      else FreeMaster(y, x, true)
    case FreeContext(x) => FreeMaster(y, x, false)
    case ActiveSlave(_) => y
  }

  /** CommandDispatch at the slave. */
  function AtSlave(y: State, msg: Msg, ok: bool): State
  {
    match msg
    case ActiveSlave(x) => y.(s := y.s[x := Point(false, false, false)], asked := y.asked + {x})
    case Data(x, bytes) =>
      if !Alive(y.s, x) then y
      else if ok then y.(toTarget := More(y.toTarget, x, bytes))
      else FreeSlave(y, x, true)
    case FreeContext(x) => FreeSlave(y, x, false)
    case ActiveMaster(_) => y
  }

  predicate Enabled(y: State, e: Event)
  {
    match e
    case Accept(x) => x !in y.used
    case MasterTakes(_) => y.toMaster != []
    case SlaveTakes(_) => y.toSlave != []
    case Connected(x, _, _) => Alive(y.s, x) && !y.s[x].connected
    case MasterReads(x, bytes, sent) => Alive(y.m, x) && y.m[x].reading && Readable(bytes, sent)
    case SlaveReads(x, bytes, sent) => Alive(y.s, x) && y.s[x].reading && Readable(bytes, sent)
    case MasterFrees(x, _) => x in y.m
    case SlaveFrees(x, _) => x in y.s
    case MasterForgets(x) => x in y.m && y.m[x].finish
    case SlaveForgets(x) => x in y.s && y.s[x].finish
    case MasterUnsent => y.toSlave != [] && !y.toSlave[|y.toSlave| - 1].Data?
    case SlaveUnsent => y.toMaster != [] && y.toMaster[|y.toMaster| - 1].FreeContext?
  }

  /** A read that is passed on has at least one byte, and SendToTask turns down a large one. */
  predicate Readable(bytes: seq<byte>, sent: bool)
  {
    bytes != [] && (sent ==> |bytes| <= SEND_MAX)
  }

  /** So a read of more than 122880 bytes, or of none, is never on a link. */
  lemma LargeReadsUnsent(y: State, e: Event)
    requires Enabled(y, e)
    ensures e.MasterReads? || e.SlaveReads? ==> e.bytes != [] && (e.sent ==> |e.bytes| <= 122880)
  {
  }

  /** ReadForwardBuf at the master; the result of SendToTask is not looked at. */
  function ReadAtMaster(y: State, x: Id, bytes: seq<byte>, sent: bool): State
  {
    var y := y.(fromClient := More(y.fromClient, x, bytes));
    if sent then y.(toSlave := y.toSlave + [Data(x, bytes)], sentClient := More(y.sentClient, x, bytes)) else y
  }

  function ReadAtSlave(y: State, x: Id, bytes: seq<byte>, sent: bool): State
  {
    var y := y.(fromTarget := More(y.fromTarget, x, bytes));
    if sent then y.(toMaster := y.toMaster + [Data(x, bytes)], sentTarget := More(y.sentTarget, x, bytes)) else y
  }

  function DropLast(q: seq<Msg>): seq<Msg>
    requires q != []
  {
    q[..|q| - 1]
  }

  /** SetupPointContinue after the target connected: ACTIVE_MASTER first, reading second. */
  function OnConnected(y: State, x: Id, ok: bool, begins: bool): State
    requires x in y.s
  {
    if !ok then FreeSlave(y, x, true)
    else y.(s := y.s[x := Point(true, begins, false)], toMaster := y.toMaster + [ActiveMaster(x)],
            connected := y.connected + {x})
  }

  function Step(y: State, e: Event): State
    requires Enabled(y, e)
  {
    match e
    case Accept(x) =>
      y.(m := y.m[x := Point(true, false, false)], toSlave := y.toSlave + [ActiveSlave(x)], used := y.used + {x})
    case MasterTakes(ok) => AtMaster(y.(toMaster := y.toMaster[1..]), y.toMaster[0], ok)
    case SlaveTakes(ok) => AtSlave(y.(toSlave := y.toSlave[1..]), y.toSlave[0], ok)
    case Connected(x, ok, begins) => OnConnected(y, x, ok, begins)
    case MasterReads(x, bytes, sent) => ReadAtMaster(y, x, bytes, sent)
    case SlaveReads(x, bytes, sent) => ReadAtSlave(y, x, bytes, sent)
    case MasterFrees(x, notify) => FreeMaster(y, x, notify)
    case SlaveFrees(x, notify) => FreeSlave(y, x, notify)
    case MasterForgets(x) => y.(m := y.m - {x})
    case SlaveForgets(x) => y.(s := y.s - {x})
    case MasterUnsent => y.(toSlave := DropLast(y.toSlave))
    case SlaveUnsent => y.(toMaster := DropLast(y.toMaster))
  }

  // ------------------------------------------------------------ order of activation and data

  /** A connection's request to the slave is on its way at most once, and only before anything else of it. */
  ghost predicate RequestsOk(y: State)
  {
    && (forall k :: 0 <= k < |y.toSlave| && y.toSlave[k].ActiveSlave? ==>
          y.toSlave[k].x in y.used && y.toSlave[k].x !in y.asked)
    && (forall j, k :: 0 <= j < k < |y.toSlave| && y.toSlave[j].ActiveSlave? && y.toSlave[k].ActiveSlave? ==>
          y.toSlave[j].x != y.toSlave[k].x)
    && y.asked <= y.used && y.connected <= y.asked && y.begun <= y.connected
    && (forall x :: x in y.m ==> x in y.used) && (forall x :: x in y.s ==> x in y.asked)
  }

  /** What each end knows about a connection is true of it. */
  ghost predicate PointsOk(y: State)
  {
    && (forall x :: Alive(y.m, x) && y.m[x].reading ==> x in y.begun)
    && (forall x :: Alive(y.s, x) ==> (y.s[x].connected <==> x in y.connected))
    && (forall x :: Alive(y.s, x) && y.s[x].reading ==> x in y.connected)
    && (forall k :: 0 <= k < |y.toSlave| && y.toSlave[k].Data? ==> y.toSlave[k].x in y.connected)
    && (forall k :: 0 <= k < |y.toMaster| && (y.toMaster[k].ActiveMaster? || y.toMaster[k].Data?) ==>
          y.toMaster[k].x in y.connected)
  }

  /** The master has begun the connection or given it up. */
  ghost predicate Settled(y: State, x: Id)
  {
    x in y.begun || !Alive(y.m, x)
  }

  /** In the first n messages to the master there is the activation of x. */
  ghost predicate Announced(q: seq<Msg>, x: Id, n: nat)
  {
    n <= |q| && exists j :: 0 <= j < n && q[j] == ActiveMaster(x)
  }

  /** Data to the master is behind the activation, if that is still on its way. */
  ghost predicate AnnouncedOk(y: State)
  {
    && (forall k :: 0 <= k < |y.toMaster| && y.toMaster[k].Data? ==>
          Settled(y, y.toMaster[k].x) || Announced(y.toMaster, y.toMaster[k].x, k))
    && (forall x :: x in y.connected ==> Settled(y, x) || Announced(y.toMaster, x, |y.toMaster|))
  }

  ghost predicate Inv(y: State)
  {
    RequestsOk(y) && PointsOk(y) && AnnouncedOk(y)
  }

  lemma AnnouncedGrows(q: seq<Msg>, more: seq<Msg>, x: Id, n: nat)
    requires Announced(q, x, n)
    ensures Announced(q + more, x, n) && Announced(q + more, x, |q + more|)
  {
    var j :| 0 <= j < n && q[j] == ActiveMaster(x);
    assert (q + more)[j] == ActiveMaster(x);
  }

  /** No connection the slave has made comes back to an unsettled state at the master. */
  ghost predicate StaySettled(y: State, z: State)
  {
    z.connected == y.connected && forall x :: x in y.connected && Settled(y, x) ==> Settled(z, x)
  }

  lemma AnnouncedAfter(y: State, z: State, more: seq<Msg>)
    requires PointsOk(y) && AnnouncedOk(y) && StaySettled(y, z) && z.toMaster == y.toMaster + more
    requires forall k :: 0 <= k < |more| && more[k].Data? ==> more[k].x in y.connected
    ensures AnnouncedOk(z)
  {
    forall x | x in z.connected ensures Settled(z, x) || Announced(z.toMaster, x, |y.toMaster|) {
      if !Settled(y, x) {
        AnnouncedGrows(y.toMaster, more, x, |y.toMaster|);
      }
    }
    forall k | 0 <= k < |z.toMaster| && z.toMaster[k].Data?
      ensures Settled(z, z.toMaster[k].x) || Announced(z.toMaster, z.toMaster[k].x, k)
    {
      var x := z.toMaster[k].x;
      if k < |y.toMaster| {
        assert y.toMaster[k] == z.toMaster[k];
        if !Settled(y, x) {
          AnnouncedGrows(y.toMaster, more, x, k);
        }
      } else {
        assert z.toMaster[k] == more[k - |y.toMaster|];
      }
    }
  }

  lemma AnnouncedShift(q: seq<Msg>, x: Id, n: nat)
    requires Announced(q, x, n) && q[0] != ActiveMaster(x)
    ensures n > 0 && Announced(q[1..], x, n - 1)
  {
    var j :| 0 <= j < n && q[j] == ActiveMaster(x);
    assert q[1..][j - 1] == ActiveMaster(x);
  }

  /** Taking the head of the link: an activation taken settles its connection. */
  lemma AnnouncedTaken(y: State, z: State)
    requires PointsOk(y) && AnnouncedOk(y) && StaySettled(y, z) && y.toMaster != [] && z.toMaster == y.toMaster[1..]
    requires y.toMaster[0].ActiveMaster? ==> Settled(z, y.toMaster[0].x)
    ensures AnnouncedOk(z)
  {
    forall x | x in z.connected ensures Settled(z, x) || Announced(z.toMaster, x, |z.toMaster|) {
      if !Settled(z, x) {
        AnnouncedShift(y.toMaster, x, |y.toMaster|);
      }
    }
    forall k | 0 <= k < |z.toMaster| && z.toMaster[k].Data?
      ensures Settled(z, z.toMaster[k].x) || Announced(z.toMaster, z.toMaster[k].x, k)
    {
      var x := z.toMaster[k].x;
      assert y.toMaster[k + 1] == z.toMaster[k];
      if !Settled(z, x) {
        AnnouncedShift(y.toMaster, x, k + 1);
      }
    }
  }

  lemma FreeMasterKeeps(y: State, x: Id, notify: bool)
    requires Inv(y)
    ensures Inv(FreeMaster(y, x, notify))
  {
    var z := FreeMaster(y, x, notify);
    assert z.toMaster == y.toMaster + [];
    AnnouncedAfter(y, z, []);
  }

  lemma FreeSlaveKeeps(y: State, x: Id, notify: bool)
    requires Inv(y)
    ensures Inv(FreeSlave(y, x, notify))
  {
    if Alive(y.s, x) {
      AnnouncedAfter(y, FreeSlave(y, x, notify), if notify then [FreeContext(x)] else []);
    }
  }

  lemma AcceptKeeps(y: State, x: Id)
    requires Inv(y) && x !in y.used
    ensures Inv(Step(y, Accept(x)))
  {
    var z := Step(y, Accept(x));
    assert z.toMaster == y.toMaster + [];
    AnnouncedAfter(y, z, []);
  }

  lemma ConnectedKeeps(y: State, x: Id, begins: bool)
    requires Inv(y) && Alive(y.s, x) && !y.s[x].connected
    ensures Inv(OnConnected(y, x, true, begins))
  {
    var z := OnConnected(y, x, true, begins);
    var w := z.(connected := y.connected);
    AnnouncedAfter(y, w, [ActiveMaster(x)]);
    assert z.toMaster[|y.toMaster|] == ActiveMaster(x);
    assert AnnouncedOk(z);
  }

  lemma SlaveReadsKeeps(y: State, x: Id, bytes: seq<byte>, sent: bool)
    requires Inv(y) && Enabled(y, SlaveReads(x, bytes, sent))
    ensures Inv(ReadAtSlave(y, x, bytes, sent))
  {
    assert y.toMaster == y.toMaster + [];
    AnnouncedAfter(y, ReadAtSlave(y, x, bytes, sent), if sent then [Data(x, bytes)] else []);
  }

  lemma MasterReadsKeeps(y: State, x: Id, bytes: seq<byte>, sent: bool)
    requires Inv(y) && Enabled(y, MasterReads(x, bytes, sent))
    ensures Inv(ReadAtMaster(y, x, bytes, sent))
  {
    var z := ReadAtMaster(y, x, bytes, sent);
    assert z.toMaster == y.toMaster + [];
    AnnouncedAfter(y, z, []);
  }

  lemma MasterUnsentKeeps(y: State)
    requires Inv(y) && y.toSlave != []
    ensures Inv(y.(toSlave := DropLast(y.toSlave)))
  {
    var z := y.(toSlave := DropLast(y.toSlave));
    assert z.toMaster == y.toMaster + [];
    AnnouncedAfter(y, z, []);
  }

  lemma AnnouncedEarlier(q: seq<Msg>, x: Id, n: nat)
    requires Announced(q, x, n) && q != [] && q[|q| - 1].FreeContext?
    ensures Announced(DropLast(q), x, if n == |q| then n - 1 else n)
  {
    var j :| 0 <= j < n && q[j] == ActiveMaster(x);
    assert DropLast(q)[j] == ActiveMaster(x);
  }

  /** A notification lost from the end of the link was no activation. */
  lemma SlaveUnsentKeeps(y: State)
    requires Inv(y) && y.toMaster != [] && y.toMaster[|y.toMaster| - 1].FreeContext?
    ensures Inv(y.(toMaster := DropLast(y.toMaster)))
  {
    var z := y.(toMaster := DropLast(y.toMaster));
    forall x | x in z.connected ensures Settled(z, x) || Announced(z.toMaster, x, |z.toMaster|) {
      if !Settled(y, x) {
        AnnouncedEarlier(y.toMaster, x, |y.toMaster|);
      }
    }
    forall k | 0 <= k < |z.toMaster| && z.toMaster[k].Data?
      ensures Settled(z, z.toMaster[k].x) || Announced(z.toMaster, z.toMaster[k].x, k)
    {
      assert y.toMaster[k] == z.toMaster[k];
      if !Settled(y, z.toMaster[k].x) {
        AnnouncedEarlier(y.toMaster, z.toMaster[k].x, k);
      }
    }
  }

  lemma MasterDropKeeps(y: State)
    requires Inv(y) && y.toMaster != []
    requires y.toMaster[0].ActiveMaster? ==> Settled(y, y.toMaster[0].x)
    ensures Inv(y.(toMaster := y.toMaster[1..]))
  {
    AnnouncedTaken(y, y.(toMaster := y.toMaster[1..]));
  }

  lemma ActivationTaken(y: State, x: Id)
    requires Inv(y) && y.toMaster != [] && y.toMaster[0] == ActiveMaster(x) && Alive(y.m, x)
    ensures Inv(y.(toMaster := y.toMaster[1..], m := y.m[x := y.m[x].(reading := true)], begun := y.begun + {x}))
  {
    var z := y.(toMaster := y.toMaster[1..], m := y.m[x := y.m[x].(reading := true)], begun := y.begun + {x});
    assert x in y.connected;
    AnnouncedTaken(y, z);
  }

  lemma ActivationFailed(y: State, x: Id)
    requires Inv(y) && y.toMaster != [] && y.toMaster[0] == ActiveMaster(x) && Alive(y.m, x)
    ensures Inv(FreeMaster(y.(toMaster := y.toMaster[1..]), x, true))
  {
    FreeMasterKeeps(y, x, true);
    MasterDropKeeps(FreeMaster(y, x, true));
  }

  lemma MasterDataKeeps(y: State, x: Id, bytes: seq<byte>)
    requires Inv(y)
    ensures Inv(y.(toClient := More(y.toClient, x, bytes)))
  {
    var z := y.(toClient := More(y.toClient, x, bytes));
    assert z.toMaster == y.toMaster + [];
    AnnouncedAfter(y, z, []);
  }

  lemma MasterTakesKeeps(y: State, ok: bool)
    requires Inv(y) && y.toMaster != []
    ensures Inv(Step(y, MasterTakes(ok)))
  {
    var w := y.(toMaster := y.toMaster[1..]);
    match y.toMaster[0]
    case ActiveMaster(x) =>
      if !Alive(y.m, x) {
        MasterDropKeeps(y);
      } else if ok {
        ActivationTaken(y, x);
      } else {
        ActivationFailed(y, x);
      }
    case Data(x, bytes) =>
      MasterDropKeeps(y);
      MasterDataKeeps(w, x, bytes);
      FreeMasterKeeps(w, x, true);
    case FreeContext(x) =>
      MasterDropKeeps(y);
      FreeMasterKeeps(w, x, false);
    case ActiveSlave(_) =>
      MasterDropKeeps(y);
  }

  lemma SlaveDropKeeps(y: State)
    requires Inv(y) && y.toSlave != []
    ensures Inv(y.(toSlave := y.toSlave[1..]))
  {
    var w := y.(toSlave := y.toSlave[1..]);
    assert w.toMaster == y.toMaster + [];
    AnnouncedAfter(y, w, []);
  }

  lemma RequestTaken(y: State, x: Id)
    requires Inv(y) && x in y.used && x !in y.asked
    requires forall k :: 0 <= k < |y.toSlave| && y.toSlave[k].ActiveSlave? ==> y.toSlave[k].x != x
    ensures Inv(y.(s := y.s[x := Point(false, false, false)], asked := y.asked + {x}))
  {
    var z := y.(s := y.s[x := Point(false, false, false)], asked := y.asked + {x});
    assert z.toMaster == y.toMaster + [];
    AnnouncedAfter(y, z, []);
  }

  lemma SlaveDataKeeps(y: State, x: Id, bytes: seq<byte>)
    requires Inv(y)
    ensures Inv(y.(toTarget := More(y.toTarget, x, bytes)))
  {
    var z := y.(toTarget := More(y.toTarget, x, bytes));
    assert z.toMaster == y.toMaster + [];
    AnnouncedAfter(y, z, []);
  }

  lemma SlaveTakesKeeps(y: State, ok: bool)
    requires Inv(y) && y.toSlave != []
    ensures Inv(Step(y, SlaveTakes(ok)))
  {
    var w := y.(toSlave := y.toSlave[1..]);
    SlaveDropKeeps(y);
    match y.toSlave[0]
    case ActiveSlave(x) =>
      RequestTaken(w, x);
    case Data(x, bytes) =>
      SlaveDataKeeps(w, x, bytes);
      FreeSlaveKeeps(w, x, true);
    case FreeContext(x) =>
      FreeSlaveKeeps(w, x, false);
    case ActiveMaster(_) =>
  }

  lemma ForgetKeeps(y: State, x: Id)
    requires Inv(y)
    ensures x in y.m && y.m[x].finish ==> Inv(y.(m := y.m - {x}))
    ensures x in y.s && y.s[x].finish ==> Inv(y.(s := y.s - {x}))
  {
    assert y.toMaster == y.toMaster + [];
    if x in y.m && y.m[x].finish {
      AnnouncedAfter(y, y.(m := y.m - {x}), []);
    }
    if x in y.s && y.s[x].finish {
      AnnouncedAfter(y, y.(s := y.s - {x}), []);
    }
  }

  lemma StepKeepsInv(y: State, e: Event)
    requires Inv(y) && Enabled(y, e)
    ensures Inv(Step(y, e))
  {
    match e
    case Accept(x) => AcceptKeeps(y, x);
    case MasterTakes(ok) => MasterTakesKeeps(y, ok);
    case SlaveTakes(ok) => SlaveTakesKeeps(y, ok);
    case Connected(x, ok, begins) =>
      if ok {
        ConnectedKeeps(y, x, begins);
      } else {
        FreeSlaveKeeps(y, x, true);
      }
    case MasterReads(x, bytes, sent) => MasterReadsKeeps(y, x, bytes, sent);
    case SlaveReads(x, bytes, sent) => SlaveReadsKeeps(y, x, bytes, sent);
    case MasterFrees(x, notify) => FreeMasterKeeps(y, x, notify);
    case SlaveFrees(x, notify) => FreeSlaveKeeps(y, x, notify);
    case MasterForgets(x) => ForgetKeeps(y, x);
    case SlaveForgets(x) => ForgetKeeps(y, x);
    case MasterUnsent => MasterUnsentKeeps(y);
    case SlaveUnsent => SlaveUnsentKeeps(y);
  }

  ghost predicate Run(y: State, es: seq<Event>, z: State)
    decreases |es|
  {
    if es == [] then z == y else Enabled(y, es[0]) && Run(Step(y, es[0]), es[1..], z)
  }

  lemma {:induction false} RunKeeps(y: State, es: seq<Event>, z: State)
    requires Inv(y) && Conserved(y) && Run(y, es, z)
    ensures Inv(z) && Conserved(z)
    decreases |es|
  {
    if es != [] {
      StepKeepsInv(y, es[0]);
      StepConserves(y, es[0]);
      RunKeeps(Step(y, es[0]), es[1..], z);
    }
  }

  /** In every run: when the slave takes data for a point it has, that point is connected to its target;
      when the master takes data for a point it has, it has begun that connection, and the slave
      connected it before. */
  lemma NoDataForUnconnected(es: seq<Event>, y: State)
    requires Run(INITIAL, es, y)
    ensures y.toSlave != [] && y.toSlave[0].Data? ==>
      y.toSlave[0].x in y.connected && (Alive(y.s, y.toSlave[0].x) ==> y.s[y.toSlave[0].x].connected)
    ensures y.toMaster != [] && y.toMaster[0].Data? && Alive(y.m, y.toMaster[0].x) ==>
      y.toMaster[0].x in y.begun && y.toMaster[0].x in y.connected
  {
    RunKeeps(INITIAL, es, y);
    if y.toMaster != [] && y.toMaster[0].Data? {
      assert !Announced(y.toMaster, y.toMaster[0].x, 0);
    }
  }

  // ------------------------------------------------------------ the life of a point

  /** The event that ends the master's point of x: a freeing there, FREE_CONTEXT from the slave, or a read that
      does not start or a write that fails. */
  predicate EndsMaster(y: State, e: Event, x: Id)
  {
    match e
    case MasterFrees(i, _) => i == x
    case MasterTakes(ok) => y.toMaster != [] && y.toMaster[0].x == x && !y.toMaster[0].ActiveSlave? && (y.toMaster[0].FreeContext? || !ok)
    case _ => false
  }

  predicate EndsSlave(y: State, e: Event, x: Id)
  {
    match e
    case SlaveFrees(i, _) => i == x
    case Connected(i, ok, _) => i == x && !ok
    case SlaveTakes(ok) => y.toSlave != [] && y.toSlave[0].x == x && (y.toSlave[0].FreeContext? || (y.toSlave[0].Data? && !ok))
    case _ => false
  }

  /** The peer is not told when the freeing says so or when it was the peer that told. */
  predicate MasterSilent(y: State, e: Event)
  {
    (e.MasterFrees? && !e.notify) || (e.MasterTakes? && y.toMaster != [] && y.toMaster[0].FreeContext?)
  }

  predicate SlaveSilent(y: State, e: Event)
  {
    (e.SlaveFrees? && !e.notify) || (e.SlaveTakes? && y.toSlave != [] && y.toSlave[0].FreeContext?)
  }

  /** What a freeing does to the points and links, at either end. */
  lemma FreeMasterLife(y: State, i: Id, notify: bool, x: Id)
    ensures var z := FreeMaster(y, i, notify);
      && (Alive(z.m, x) <==> Alive(y.m, x) && i != x) && (Alive(z.m, x) ==> z.m[x] == y.m[x])
      && z.toSlave == y.toSlave + (if Alive(y.m, i) && notify then [FreeContext(i)] else [])
      && z.s == y.s && z.toMaster == y.toMaster && z.used == y.used && z.asked == y.asked
  {
    assert y.toSlave + [] == y.toSlave;
  }

  lemma FreeSlaveLife(y: State, i: Id, notify: bool, x: Id)
    ensures var z := FreeSlave(y, i, notify);
      && (Alive(z.s, x) <==> Alive(y.s, x) && i != x) && (Alive(z.s, x) ==> z.s[x] == y.s[x])
      && z.toMaster == y.toMaster + (if Alive(y.s, i) && notify then [FreeContext(i)] else [])
      && z.m == y.m && z.toSlave == y.toSlave && z.used == y.used && z.asked == y.asked
  {
    assert y.toMaster + [] == y.toMaster;
  }

  predicate KillsAtMaster(msg: Msg, ok: bool, x: Id)
  {
    msg.x == x && !msg.ActiveSlave? && (msg.FreeContext? || !ok)
  }

  predicate KillsAtSlave(msg: Msg, ok: bool, x: Id)
  {
    msg.x == x && (msg.FreeContext? || (msg.Data? && !ok))
  }

  lemma AtMasterLife(y: State, msg: Msg, ok: bool, x: Id)
    ensures var z := AtMaster(y, msg, ok);
      && (Alive(z.m, x) <==> Alive(y.m, x) && !KillsAtMaster(msg, ok, x))
      && z.toSlave == y.toSlave + (if Alive(y.m, msg.x) && KillsAtMaster(msg, ok, msg.x) && !msg.FreeContext? then [FreeContext(msg.x)] else [])
      && (Alive(z.m, x) ==> z.m[x].reading == (y.m[x].reading || (msg == ActiveMaster(x) && ok)))
      && z.s == y.s && z.toMaster == y.toMaster && z.used == y.used && z.asked == y.asked
  {
    FreeMasterLife(y, msg.x, !msg.FreeContext?, x);
    assert y.toSlave + [] == y.toSlave;
  }

  lemma AtSlaveLife(y: State, msg: Msg, ok: bool, x: Id)
    ensures var z := AtSlave(y, msg, ok);
      && (Alive(z.s, x) <==> msg == ActiveSlave(x) || (Alive(y.s, x) && !KillsAtSlave(msg, ok, x)))
      && z.toMaster == y.toMaster + (if Alive(y.s, msg.x) && KillsAtSlave(msg, ok, msg.x) && !msg.FreeContext? then [FreeContext(msg.x)] else [])
      && z.m == y.m && z.toSlave == y.toSlave && z.used == y.used && y.asked <= z.asked
  {
    FreeSlaveLife(y, msg.x, !msg.FreeContext?, x);
    assert y.toMaster + [] == y.toMaster;
  }

  /** The events that touch neither the master's points nor its link, but for those named. */
  lemma PassMaster(y: State, e: Event)
    requires Enabled(y, e) && (e.SlaveReads? || e.SlaveForgets? || e.SlaveUnsent?)
    ensures Step(y, e).m == y.m && Step(y, e).used == y.used && Step(y, e).asked == y.asked
  {
    match e
    case SlaveReads(x, bytes, sent) => assert ReadAtSlave(y, x, bytes, sent).m == y.m;
    case SlaveForgets(x) =>
    case SlaveUnsent =>
  }

  lemma PassSlave(y: State, e: Event)
    requires Enabled(y, e) && (e.Accept? || e.MasterReads? || e.MasterForgets? || e.MasterUnsent?)
    ensures Step(y, e).s == y.s && y.used <= Step(y, e).used && Step(y, e).asked == y.asked
  {
  }

  ghost predicate MasterLives(y: State, e: Event, x: Id, z: State)
  {
    && (Alive(z.m, x) <==> e == Accept(x) || (Alive(y.m, x) && !EndsMaster(y, e, x)))
    && (Alive(y.m, x) && EndsMaster(y, e, x) ==>
          z.toSlave == if MasterSilent(y, e) then y.toSlave else y.toSlave + [FreeContext(x)])
  }

  ghost predicate SlaveLives(y: State, e: Event, x: Id, z: State)
  {
    && (Alive(z.s, x) <==> (e.SlaveTakes? && y.toSlave != [] && y.toSlave[0] == ActiveSlave(x)) || (Alive(y.s, x) && !EndsSlave(y, e, x)))
    && (Alive(y.s, x) && EndsSlave(y, e, x) ==>
          z.toMaster == if SlaveSilent(y, e) then y.toMaster else y.toMaster + [FreeContext(x)])
  }

  lemma MasterEventLife(y: State, e: Event, x: Id)
    requires Enabled(y, e) && (e.Accept? || e.MasterReads? || e.MasterForgets? || e.MasterUnsent?)
    ensures MasterLives(y, e, x, Step(y, e))
  {
  }

  lemma SlaveEventLife(y: State, e: Event, x: Id)
    requires Enabled(y, e) && (e.SlaveReads? || e.SlaveForgets? || e.SlaveUnsent?)
    ensures SlaveLives(y, e, x, Step(y, e))
  {
  }

  lemma ConnectedLife(y: State, i: Id, ok: bool, begins: bool, x: Id)
    requires Enabled(y, Connected(i, ok, begins))
    ensures SlaveLives(y, Connected(i, ok, begins), x, OnConnected(y, i, ok, begins))
    ensures OnConnected(y, i, ok, begins).m == y.m
    ensures OnConnected(y, i, ok, begins).used == y.used && OnConnected(y, i, ok, begins).asked == y.asked
  {
    FreeSlaveLife(y, i, true, x);
  }

  /** At the master: a point comes into being when its client is accepted, and ends by exactly these events;
      the slave is told of it exactly then, unless it was the slave that told or nobody is to be told. */
  lemma MasterLife(y: State, e: Event, x: Id)
    requires Enabled(y, e)
    ensures MasterLives(y, e, x, Step(y, e))
  {
    match e
    case MasterTakes(ok) => MasterTakesLife(y, ok, x);
    case SlaveTakes(ok) => AtSlaveLife(y.(toSlave := y.toSlave[1..]), y.toSlave[0], ok, x);
    case Connected(i, ok, begins) => ConnectedLife(y, i, ok, begins, x);
    case MasterFrees(i, notify) => FreeMasterLife(y, i, notify, x);
    case SlaveFrees(i, notify) => FreeSlaveLife(y, i, notify, x);
    case _ =>
      if e.SlaveReads? || e.SlaveForgets? || e.SlaveUnsent? {
        PassMaster(y, e);
      } else {
        MasterEventLife(y, e, x);
      }
  }

  lemma MasterTakesLife(y: State, ok: bool, x: Id)
    requires y.toMaster != []
    ensures MasterLives(y, MasterTakes(ok), x, Step(y, MasterTakes(ok)))
  {
    AtMasterLife(y.(toMaster := y.toMaster[1..]), y.toMaster[0], ok, x);
  }

  lemma SlaveTakesLife(y: State, ok: bool, x: Id)
    requires y.toSlave != []
    ensures SlaveLives(y, SlaveTakes(ok), x, Step(y, SlaveTakes(ok)))
  {
    AtSlaveLife(y.(toSlave := y.toSlave[1..]), y.toSlave[0], ok, x);
  }

  /** At the slave: the same, with its point coming into being when ACTIVE_SLAVE is taken. */
  lemma SlaveLife(y: State, e: Event, x: Id)
    requires Enabled(y, e)
    ensures SlaveLives(y, e, x, Step(y, e))
  {
    match e
    case SlaveTakes(ok) => SlaveTakesLife(y, ok, x);
    case MasterTakes(ok) => AtMasterLife(y.(toMaster := y.toMaster[1..]), y.toMaster[0], ok, x);
    case Connected(i, ok, begins) => ConnectedLife(y, i, ok, begins, x);
    case MasterFrees(i, notify) => FreeMasterLife(y, i, notify, x);
    case SlaveFrees(i, notify) => FreeSlaveLife(y, i, notify, x);
    case _ =>
      if e.SlaveReads? || e.SlaveForgets? || e.SlaveUnsent? {
        SlaveEventLife(y, e, x);
      } else {
        PassSlave(y, e);
      }
  }

  /** Who reads: the master's point from ACTIVE_MASTER on, if the read starts, the slave's from the moment it is
      connected, if the read starts. */
  lemma MasterReadsFrom(y: State, ok: bool, x: Id)
    requires y.toMaster != [] && Alive(Step(y, MasterTakes(ok)).m, x)
    ensures Alive(y.m, x)
    ensures Step(y, MasterTakes(ok)).m[x].reading <==> y.m[x].reading || (ok && y.toMaster[0] == ActiveMaster(x))
  {
    AtMasterLife(y.(toMaster := y.toMaster[1..]), y.toMaster[0], ok, x);
  }

  lemma SlaveReadsFrom(y: State, x: Id, begins: bool)
    requires x in y.s
    ensures OnConnected(y, x, true, begins).s[x] == Point(true, begins, false)
    ensures OnConnected(y, x, true, begins).toMaster == y.toMaster + [ActiveMaster(x)]
  {
  }

  /** The deferred deletion takes the context out of its map and leaves the rest alone. */
  lemma Forgotten(y: State, x: Id)
    ensures x in y.m && y.m[x].finish ==>
      Step(y, MasterForgets(x)).m == (map i | i in y.m && i != x :: y.m[i]) && Step(y, MasterForgets(x)).s == y.s
    ensures x in y.s && y.s[x].finish ==>
      Step(y, SlaveForgets(x)).s == (map i | i in y.s && i != x :: y.s[i]) && Step(y, SlaveForgets(x)).m == y.m
  {
  }

  /** A point that is gone stays gone, whatever follows. */
  lemma {:induction false} GoneForGood(y: State, es: seq<Event>, z: State, x: Id)
    requires Inv(y) && Run(y, es, z)
    ensures x in y.used && !Alive(y.m, x) ==> x in z.used && !Alive(z.m, x)
    ensures x in y.asked && !Alive(y.s, x) ==> x in z.asked && !Alive(z.s, x)
    decreases |es|
  {
    if es != [] {
      StepKeepsInv(y, es[0]);
      StepGone(y, es[0], x);
      GoneForGood(Step(y, es[0]), es[1..], z, x);
    }
  }

  lemma StepGone(y: State, e: Event, x: Id)
    requires Inv(y) && Enabled(y, e)
    ensures x in y.used ==> x in Step(y, e).used && (!Alive(y.m, x) ==> !Alive(Step(y, e).m, x))
    ensures x in y.asked ==> x in Step(y, e).asked && (!Alive(y.s, x) ==> !Alive(Step(y, e).s, x))
  {
    MasterLife(y, e, x);
    SlaveLife(y, e, x);
    NamesOnlyGrow(y, e);
    if e.SlaveTakes? && y.toSlave[0] == ActiveSlave(x) {
      assert x !in y.asked;
    }
  }

  lemma NamesOnlyGrow(y: State, e: Event)
    requires Enabled(y, e)
    ensures y.used <= Step(y, e).used && y.asked <= Step(y, e).asked
  {
    match e
    case MasterTakes(ok) => AtMasterLife(y.(toMaster := y.toMaster[1..]), y.toMaster[0], ok, 0);
    case SlaveTakes(ok) => AtSlaveLife(y.(toSlave := y.toSlave[1..]), y.toSlave[0], ok, 0);
    case Connected(i, ok, begins) => ConnectedLife(y, i, ok, begins, 0);
    case MasterFrees(i, notify) => FreeMasterLife(y, i, notify, 0);
    case SlaveFrees(i, notify) => FreeSlaveLife(y, i, notify, 0);
    case _ =>
      if e.SlaveReads? || e.SlaveForgets? || e.SlaveUnsent? {
        PassMaster(y, e);
      } else {
        PassSlave(y, e);
      }
  }

  // ------------------------------------------------------------ conservation of the bytes

  /** The bytes of connection x on a link, in order. */
  function Flight(q: seq<Msg>, x: Id): seq<byte>
  {
    if q == [] then []
    else (if q[0].Data? && q[0].x == x then q[0].bytes else []) + Flight(q[1..], x)
  }

  lemma {:induction false} FlightJoin(a: seq<Msg>, b: seq<Msg>, x: Id)
    ensures Flight(a + b, x) == Flight(a, x) + Flight(b, x)
  {
    if a == [] {
      assert a + b == b;
    } else {
      assert (a + b)[1..] == a[1..] + b;
      FlightJoin(a[1..], b, x);
    }
  }

  lemma FlightOne(q: seq<Msg>, msg: Msg, x: Id)
    ensures Flight(q + [msg], x) == Flight(q, x) + if msg.Data? && msg.x == x then msg.bytes else []
  {
    FlightJoin(q, [msg], x);
    assert [msg][1..] == [];
  }

  /** One direction: what was sent is what was written plus what is on its way, as long as the writing
      point lives; after that, what was written is the first part of what was sent. */
  ghost predicate Through(sent: Bytewise, link: seq<Msg>, written: Bytewise, writer: map<Id, Point>, x: Id)
  {
    && Got(written, x) <= Got(sent, x)
    && (Alive(writer, x) ==> Got(written, x) + Flight(link, x) == Got(sent, x))
  }

  /** Nothing was sent for a connection before the slave connected it, so nothing is lost before its point exists. */
  ghost predicate Conserved(y: State)
  {
    && (forall x :: Through(y.sentClient, y.toSlave, y.toTarget, y.s, x))
    && (forall x :: Through(y.sentTarget, y.toMaster, y.toClient, y.m, x))
    && (forall x :: x !in y.connected ==> Got(y.sentClient, x) == [] && Got(y.sentTarget, x) == [])
  }

  lemma ThroughRead(sent: Bytewise, link: seq<Msg>, written: Bytewise, writer: map<Id, Point>, x: Id, bytes: seq<byte>, z: Id)
    requires Through(sent, link, written, writer, z)
    ensures Through(More(sent, x, bytes), link + [Data(x, bytes)], written, writer, z)
  {
    FlightOne(link, Data(x, bytes), z);
    if z == x {
      assert Got(written, x) + (Flight(link, x) + bytes) == Got(written, x) + Flight(link, x) + bytes;
    }
  }

  lemma ThroughOther(sent: Bytewise, link: seq<Msg>, written: Bytewise, writer: map<Id, Point>, msg: Msg, z: Id)
    requires Through(sent, link, written, writer, z) && !msg.Data?
    ensures Through(sent, link + [msg], written, writer, z)
  {
    FlightOne(link, msg, z);
  }

  /** Data taken and written. */
  lemma ThroughWritten(sent: Bytewise, link: seq<Msg>, written: Bytewise, writer: map<Id, Point>, z: Id)
    requires link != [] && link[0].Data? && Alive(writer, link[0].x)
    requires Through(sent, link, written, writer, z) && Through(sent, link, written, writer, link[0].x)
    ensures Through(sent, link[1..], More(written, link[0].x, link[0].bytes), writer, z)
  {
    var x, bytes := link[0].x, link[0].bytes;
    assert Got(written, x) + (bytes + Flight(link[1..], x)) == Got(written, x) + bytes + Flight(link[1..], x);
    if z != x {
      assert [] + Flight(link[1..], z) == Flight(link[1..], z);
    }
  }

  /** Anything taken that is not data for a living point. */
  lemma ThroughTaken(sent: Bytewise, link: seq<Msg>, written: Bytewise, writer: map<Id, Point>, z: Id)
    requires link != [] && Through(sent, link, written, writer, z)
    requires link[0].Data? ==> !Alive(writer, link[0].x)
    ensures Through(sent, link[1..], written, writer, z)
  {
    if !(link[0].Data? && link[0].x == z) {
      assert [] + Flight(link[1..], z) == Flight(link[1..], z);
    }
  }

  lemma {:induction false} NoFlight(q: seq<Msg>, x: Id)
    requires forall k :: 0 <= k < |q| && q[k].Data? ==> q[k].x != x
    ensures Flight(q, x) == []
  {
    if q != [] {
      NoFlight(q[1..], x);
    }
  }

  /** A point that dies, or is forgotten, or changes while it lives. */
  lemma ThroughPoint(sent: Bytewise, link: seq<Msg>, written: Bytewise, writer: map<Id, Point>, writer': map<Id, Point>, z: Id)
    requires Through(sent, link, written, writer, z) && (Alive(writer', z) ==> Alive(writer, z))
    ensures Through(sent, link, written, writer', z)
  {
  }

  lemma FreeMasterConserves(y: State, x: Id, notify: bool)
    requires Conserved(y)
    ensures Conserved(FreeMaster(y, x, notify))
  {
    var a := FreeMaster(y, x, notify);
    if Alive(y.m, x) {
      forall z ensures Through(a.sentClient, a.toSlave, a.toTarget, a.s, z) {
        ThroughOther(y.sentClient, y.toSlave, y.toTarget, y.s, FreeContext(x), z);
        assert y.toSlave + [] == y.toSlave;
      }
      forall z ensures Through(a.sentTarget, a.toMaster, a.toClient, a.m, z) {
        ThroughPoint(y.sentTarget, y.toMaster, y.toClient, y.m, a.m, z);
      }
    }
  }

  lemma FreeSlaveConserves(y: State, x: Id, notify: bool)
    requires Conserved(y)
    ensures Conserved(FreeSlave(y, x, notify))
  {
    var b := FreeSlave(y, x, notify);
    if Alive(y.s, x) {
      forall z ensures Through(b.sentTarget, b.toMaster, b.toClient, b.m, z) {
        ThroughOther(y.sentTarget, y.toMaster, y.toClient, y.m, FreeContext(x), z);
        assert y.toMaster + [] == y.toMaster;
      }
      forall z ensures Through(b.sentClient, b.toSlave, b.toTarget, b.s, z) {
        ThroughPoint(y.sentClient, y.toSlave, y.toTarget, y.s, b.s, z);
      }
    }
  }

  lemma AcceptConserves(y: State, x: Id)
    requires Inv(y) && Conserved(y) && x !in y.used
    ensures Conserved(Step(y, Accept(x)))
  {
    var w := Step(y, Accept(x));
    NoFlight(y.toMaster, x);
    forall z ensures Through(w.sentClient, w.toSlave, w.toTarget, w.s, z) {
      ThroughOther(y.sentClient, y.toSlave, y.toTarget, y.s, ActiveSlave(x), z);
    }
    forall z ensures Through(w.sentTarget, w.toMaster, w.toClient, w.m, z) {
      assert Through(y.sentTarget, y.toMaster, y.toClient, y.m, z);
    }
  }

  lemma MasterReadsConserve(y: State, x: Id, bytes: seq<byte>, sent: bool)
    requires Inv(y) && Conserved(y) && Alive(y.m, x) && y.m[x].reading
    ensures Conserved(ReadAtMaster(y, x, bytes, sent))
  {
    forall z ensures Through(More(y.sentClient, x, bytes), y.toSlave + [Data(x, bytes)], y.toTarget, y.s, z) {
      ThroughRead(y.sentClient, y.toSlave, y.toTarget, y.s, x, bytes, z);
    }
  }

  lemma SlaveReadsConserve(y: State, x: Id, bytes: seq<byte>, sent: bool)
    requires Inv(y) && Conserved(y) && Alive(y.s, x) && y.s[x].reading
    ensures Conserved(ReadAtSlave(y, x, bytes, sent))
  {
    forall z ensures Through(More(y.sentTarget, x, bytes), y.toMaster + [Data(x, bytes)], y.toClient, y.m, z) {
      ThroughRead(y.sentTarget, y.toMaster, y.toClient, y.m, x, bytes, z);
    }
  }

  lemma ConnectedConserves(y: State, x: Id, begins: bool)
    requires Inv(y) && Conserved(y) && Alive(y.s, x)
    ensures Conserved(OnConnected(y, x, true, begins))
  {
    var w := OnConnected(y, x, true, begins);
    forall z
      ensures Through(w.sentClient, w.toSlave, w.toTarget, w.s, z) && Through(w.sentTarget, w.toMaster, w.toClient, w.m, z)
    {
      ThroughPoint(y.sentClient, y.toSlave, y.toTarget, y.s, w.s, z);
      ThroughOther(y.sentTarget, y.toMaster, y.toClient, y.m, ActiveMaster(x), z);
    }
  }

  lemma ForgetConserves(y: State, x: Id)
    requires Conserved(y)
    ensures Conserved(y.(m := y.m - {x})) && Conserved(y.(s := y.s - {x}))
  {
    forall z
      ensures Through(y.sentTarget, y.toMaster, y.toClient, y.m - {x}, z)
      ensures Through(y.sentClient, y.toSlave, y.toTarget, y.s - {x}, z)
    {
      ThroughPoint(y.sentTarget, y.toMaster, y.toClient, y.m, y.m - {x}, z);
      ThroughPoint(y.sentClient, y.toSlave, y.toTarget, y.s, y.s - {x}, z);
    }
  }

  /** Written data, or a message that is no data for a living point. */
  lemma MasterTakenConserves(y: State)
    requires Conserved(y) && y.toMaster != []
    ensures var msg := y.toMaster[0];
      if msg.Data? && Alive(y.m, msg.x) then
        Conserved(y.(toMaster := y.toMaster[1..], toClient := More(y.toClient, msg.x, msg.bytes)))
      else Conserved(y.(toMaster := y.toMaster[1..]))
  {
    var msg := y.toMaster[0];
    if msg.Data? && Alive(y.m, msg.x) {
      forall z ensures Through(y.sentTarget, y.toMaster[1..], More(y.toClient, msg.x, msg.bytes), y.m, z) {
        assert Through(y.sentTarget, y.toMaster, y.toClient, y.m, z);
        assert Through(y.sentTarget, y.toMaster, y.toClient, y.m, msg.x);
        ThroughWritten(y.sentTarget, y.toMaster, y.toClient, y.m, z);
      }
    } else {
      forall z ensures Through(y.sentTarget, y.toMaster[1..], y.toClient, y.m, z) {
        ThroughTaken(y.sentTarget, y.toMaster, y.toClient, y.m, z);
      }
    }
  }

  lemma SlaveTakenConserves(y: State)
    requires Conserved(y) && y.toSlave != []
    ensures var msg := y.toSlave[0];
      if msg.Data? && Alive(y.s, msg.x) then
        Conserved(y.(toSlave := y.toSlave[1..], toTarget := More(y.toTarget, msg.x, msg.bytes)))
      else Conserved(y.(toSlave := y.toSlave[1..]))
  {
    var msg := y.toSlave[0];
    if msg.Data? && Alive(y.s, msg.x) {
      forall z ensures Through(y.sentClient, y.toSlave[1..], More(y.toTarget, msg.x, msg.bytes), y.s, z) {
        assert Through(y.sentClient, y.toSlave, y.toTarget, y.s, z);
        assert Through(y.sentClient, y.toSlave, y.toTarget, y.s, msg.x);
        ThroughWritten(y.sentClient, y.toSlave, y.toTarget, y.s, z);
      }
    } else {
      forall z ensures Through(y.sentClient, y.toSlave[1..], y.toTarget, y.s, z) {
        ThroughTaken(y.sentClient, y.toSlave, y.toTarget, y.s, z);
      }
    }
  }

  /** A write that fails ends the point, so the piece it was for no longer counts. */
  lemma FailedMasterWrite(y: State, x: Id)
    requires Conserved(y) && y.toMaster != [] && y.toMaster[0].Data? && y.toMaster[0].x == x
    ensures Conserved(FreeMaster(y.(toMaster := y.toMaster[1..]), x, true))
  {
    FreeMasterConserves(y, x, true);
    MasterTakenConserves(FreeMaster(y, x, true));
  }

  lemma FailedSlaveWrite(y: State, x: Id)
    requires Conserved(y) && y.toSlave != [] && y.toSlave[0].Data? && y.toSlave[0].x == x
    ensures Conserved(FreeSlave(y.(toSlave := y.toSlave[1..]), x, true))
  {
    FreeSlaveConserves(y, x, true);
    SlaveTakenConserves(FreeSlave(y, x, true));
  }

  lemma ActivationConserves(y: State, x: Id)
    requires Conserved(y) && Alive(y.m, x)
    ensures Conserved(y.(m := y.m[x := y.m[x].(reading := true)], begun := y.begun + {x}))
  {
    var m := y.m[x := y.m[x].(reading := true)];
    forall z ensures Through(y.sentTarget, y.toMaster, y.toClient, m, z) {
      ThroughPoint(y.sentTarget, y.toMaster, y.toClient, y.m, m, z);
    }
  }

  lemma RequestConserves(y: State, x: Id)
    requires Conserved(y) && PointsOk(y) && x !in y.connected
    ensures Conserved(y.(s := y.s[x := Point(false, false, false)], asked := y.asked + {x}))
  {
    var s := y.s[x := Point(false, false, false)];
    NoFlight(y.toSlave, x);
    forall z ensures Through(y.sentClient, y.toSlave, y.toTarget, s, z) {
      assert Through(y.sentClient, y.toSlave, y.toTarget, y.s, z);
    }
  }

  lemma MasterTakesConserves(y: State, ok: bool)
    requires Inv(y) && Conserved(y) && y.toMaster != []
    ensures Conserved(Step(y, MasterTakes(ok)))
  {
    var w := y.(toMaster := y.toMaster[1..]);
    MasterTakenConserves(y);
    match y.toMaster[0]
    case ActiveMaster(x) =>
      FreeMasterConserves(w, x, true);
      if Alive(w.m, x) {
        ActivationConserves(w, x);
      }
    case Data(x, bytes) =>
      FailedMasterWrite(y, x);
    case FreeContext(x) =>
      FreeMasterConserves(w, x, false);
    case ActiveSlave(_) =>
  }

  lemma SlaveTakesConserves(y: State, ok: bool)
    requires Inv(y) && Conserved(y) && y.toSlave != []
    ensures Conserved(Step(y, SlaveTakes(ok)))
  {
    var w := y.(toSlave := y.toSlave[1..]);
    SlaveTakenConserves(y);
    match y.toSlave[0]
    case ActiveSlave(x) =>
      SlaveDropKeeps(y);
      RequestConserves(w, x);
    case Data(x, bytes) =>
      FailedSlaveWrite(y, x);
    case FreeContext(x) =>
      FreeSlaveConserves(w, x, false);
    case ActiveMaster(_) =>
  }

  lemma StepConserves(y: State, e: Event)
    requires Inv(y) && Conserved(y) && Enabled(y, e)
    ensures Conserved(Step(y, e))
  {
    match e
    case Accept(x) => AcceptConserves(y, x);
    case MasterTakes(ok) => MasterTakesConserves(y, ok);
    case SlaveTakes(ok) => SlaveTakesConserves(y, ok);
    case Connected(x, ok, begins) =>
      ConnectedConserves(y, x, begins);
      FreeSlaveConserves(y, x, true);
    case MasterReads(x, bytes, sent) => MasterReadsConserve(y, x, bytes, sent);
    case SlaveReads(x, bytes, sent) => SlaveReadsConserve(y, x, bytes, sent);
    case MasterFrees(x, notify) => FreeMasterConserves(y, x, notify);
    case SlaveFrees(x, notify) => FreeSlaveConserves(y, x, notify);
    case MasterForgets(x) => ForgetConserves(y, x);
    case SlaveForgets(x) => ForgetConserves(y, x);
    case MasterUnsent => UnsentConserves(y);
    case SlaveUnsent => UnsentConserves(y);
  }

  lemma ThroughDropped(sent: Bytewise, link: seq<Msg>, written: Bytewise, writer: map<Id, Point>, z: Id)
    requires Through(sent, link, written, writer, z) && link != [] && !link[|link| - 1].Data?
    ensures Through(sent, DropLast(link), written, writer, z)
  {
    assert link == DropLast(link) + [link[|link| - 1]];
    FlightOne(DropLast(link), link[|link| - 1], z);
  }

  lemma UnsentConserves(y: State)
    requires Conserved(y)
    ensures Enabled(y, MasterUnsent) ==> Conserved(y.(toSlave := DropLast(y.toSlave)))
    ensures Enabled(y, SlaveUnsent) ==> Conserved(y.(toMaster := DropLast(y.toMaster)))
  {
    if Enabled(y, MasterUnsent) {
      forall z ensures Through(y.sentClient, DropLast(y.toSlave), y.toTarget, y.s, z) {
        ThroughDropped(y.sentClient, y.toSlave, y.toTarget, y.s, z);
      }
    }
    if Enabled(y, SlaveUnsent) {
      forall z ensures Through(y.sentTarget, DropLast(y.toMaster), y.toClient, y.m, z) {
        ThroughDropped(y.sentTarget, y.toMaster, y.toClient, y.m, z);
      }
    }
  }

  // ------------------------------------------------------------ what was read and what was sent

  /** The bytes a read event of connection x adds, at the master or at the slave: of any read, or of a read
      that was sent. */
  function Took(e: Event, x: Id, master: bool, all: bool): seq<byte>
  {
    match e
    case MasterReads(i, bytes, sent) => if i == x && master && (all || sent) then bytes else []
    case SlaveReads(i, bytes, sent) => if i == x && !master && (all || sent) then bytes else []
    case _ => []
  }

  /** The bytes of all reads of connection x in a run, or of those that were sent, in order. */
  function Reads(es: seq<Event>, x: Id, master: bool, all: bool): seq<byte>
  {
    if es == [] then [] else Took(es[0], x, master, all) + Reads(es[1..], x, master, all)
  }

  predicate Unsent(e: Event, x: Id, master: bool)
  {
    if master then e.MasterReads? && e.x == x && !e.sent else e.SlaveReads? && e.x == x && !e.sent
  }

  /** SendToTask took every read of connection x. */
  ghost predicate AllSent(es: seq<Event>, x: Id, master: bool)
  {
    forall k :: 0 <= k < |es| ==> !Unsent(es[k], x, master)
  }

  /** The bytes of connection x read at one end, or those of them that were sent. */
  function Read(y: State, x: Id, master: bool, all: bool): seq<byte>
  {
    Got(if master then (if all then y.fromClient else y.sentClient) else if all then y.fromTarget else y.sentTarget, x)
  }

  ghost predicate SameReads(y: State, z: State)
  {
    z.fromClient == y.fromClient && z.sentClient == y.sentClient && z.fromTarget == y.fromTarget && z.sentTarget == y.sentTarget
  }

  lemma MasterOnlyWrites(y: State, msg: Msg, ok: bool)
    ensures SameReads(y, AtMaster(y, msg, ok))
  {
  }

  lemma SlaveOnlyWrites(y: State, msg: Msg, ok: bool)
    ensures SameReads(y, AtSlave(y, msg, ok))
  {
  }

  lemma OtherStepReadsNothing(y: State, e: Event)
    requires Enabled(y, e) && !e.MasterReads? && !e.SlaveReads?
    ensures SameReads(y, Step(y, e))
  {
    match e
    case MasterTakes(ok) => MasterOnlyWrites(y.(toMaster := y.toMaster[1..]), y.toMaster[0], ok);
    case SlaveTakes(ok) => SlaveOnlyWrites(y.(toSlave := y.toSlave[1..]), y.toSlave[0], ok);
    case Connected(x, ok, begins) => ConnectingReadsNothing(y, x, ok, begins);
    case MasterFrees(x, notify) => FreeingReadsNothing(y, x, notify);
    case SlaveFrees(x, notify) => FreeingReadsNothing(y, x, notify);
    case _ =>
  }

  lemma FreeingReadsNothing(y: State, x: Id, notify: bool)
    ensures SameReads(y, FreeMaster(y, x, notify)) && SameReads(y, FreeSlave(y, x, notify))
  {
  }

  lemma ConnectingReadsNothing(y: State, x: Id, ok: bool, begins: bool)
    requires x in y.s
    ensures SameReads(y, OnConnected(y, x, ok, begins))
  {
  }

  lemma MoreGot(b: Bytewise, i: Id, bytes: seq<byte>, x: Id)
    ensures Got(More(b, i, bytes), x) == Got(b, x) + if i == x then bytes else []
  {
  }

  lemma MasterStepReads(y: State, i: Id, bytes: seq<byte>, sent: bool, x: Id, master: bool, all: bool)
    ensures Read(ReadAtMaster(y, i, bytes, sent), x, master, all) ==
      Read(y, x, master, all) + Took(MasterReads(i, bytes, sent), x, master, all)
  {
    MoreGot(y.fromClient, i, bytes, x);
    MoreGot(y.sentClient, i, bytes, x);
  }

  lemma SlaveStepReads(y: State, i: Id, bytes: seq<byte>, sent: bool, x: Id, master: bool, all: bool)
    ensures Read(ReadAtSlave(y, i, bytes, sent), x, master, all) ==
      Read(y, x, master, all) + Took(SlaveReads(i, bytes, sent), x, master, all)
  {
    MoreGot(y.fromTarget, i, bytes, x);
    MoreGot(y.sentTarget, i, bytes, x);
  }

  lemma StepReads(y: State, e: Event, x: Id, master: bool, all: bool)
    requires Enabled(y, e)
    ensures Read(Step(y, e), x, master, all) == Read(y, x, master, all) + Took(e, x, master, all)
  {
    match e
    case MasterReads(i, bytes, sent) => MasterStepReads(y, i, bytes, sent, x, master, all);
    case SlaveReads(i, bytes, sent) => SlaveStepReads(y, i, bytes, sent, x, master, all);
    case _ =>
      OtherStepReadsNothing(y, e);
      SameReadsRead(y, Step(y, e), x, master, all);
  }

  lemma SameReadsRead(y: State, z: State, x: Id, master: bool, all: bool)
    requires SameReads(y, z)
    ensures Read(z, x, master, all) == Read(y, x, master, all) + []
  {
  }

  lemma {:induction false} RunReads(y: State, es: seq<Event>, z: State, x: Id, master: bool, all: bool)
    requires Run(y, es, z)
    ensures Read(z, x, master, all) == Read(y, x, master, all) + Reads(es, x, master, all)
    decreases |es|
  {
    if es != [] {
      StepReads(y, es[0], x, master, all);
      RunReads(Step(y, es[0]), es[1..], z, x, master, all);
      Associative(Read(y, x, master, all), Took(es[0], x, master, all), Reads(es[1..], x, master, all));
    }
  }

  lemma ReadsFromTheStart(es: seq<Event>, y: State, x: Id)
    requires Run(INITIAL, es, y)
    ensures Got(y.fromClient, x) == Reads(es, x, true, true) && Got(y.fromTarget, x) == Reads(es, x, false, true)
    ensures Got(y.sentClient, x) == Reads(es, x, true, false) && Got(y.sentTarget, x) == Reads(es, x, false, false)
  {
    RunReads(INITIAL, es, y, x, true, true);
    RunReads(INITIAL, es, y, x, true, false);
    RunReads(INITIAL, es, y, x, false, true);
    RunReads(INITIAL, es, y, x, false, false);
  }

  /** Reads are not empty, so the lengths decide. */
  lemma {:induction false} SentLengths(y: State, es: seq<Event>, z: State, x: Id, master: bool)
    requires Run(y, es, z)
    ensures |Reads(es, x, master, false)| <= |Reads(es, x, master, true)|
    ensures |Reads(es, x, master, false)| == |Reads(es, x, master, true)| <==> AllSent(es, x, master)
    ensures AllSent(es, x, master) ==> Reads(es, x, master, false) == Reads(es, x, master, true)
    decreases |es|
  {
    if es != [] {
      assert AllSent(es, x, master) <==> !Unsent(es[0], x, master) && AllSent(es[1..], x, master) by {
        assert forall k :: 1 <= k < |es| ==> es[k] == es[1..][k - 1];
      }
      SentLengths(Step(y, es[0]), es[1..], z, x, master);
      TookLengths(y, es[0], x, master);
    }
  }

  lemma TookLengths(y: State, e: Event, x: Id, master: bool)
    requires Enabled(y, e)
    ensures if Unsent(e, x, master) then Took(e, x, master, false) == [] && Took(e, x, master, true) != []
            else Took(e, x, master, false) == Took(e, x, master, true)
  {
  }

  /** In every run and for every connection: what reached the target is the first part of the client's reads
      that were sent, and what reached the client the first part of the target's, in order and without a
      gap; and while the writing end lives, the rest is on its way. */
  lemma BytesConserved(es: seq<Event>, y: State, x: Id)
    requires Run(INITIAL, es, y)
    ensures Got(y.toTarget, x) <= Reads(es, x, true, false) && Got(y.toClient, x) <= Reads(es, x, false, false)
    ensures Alive(y.s, x) ==> Got(y.toTarget, x) + Flight(y.toSlave, x) == Reads(es, x, true, false)
    ensures Alive(y.m, x) ==> Got(y.toClient, x) + Flight(y.toMaster, x) == Reads(es, x, false, false)
    ensures Got(y.fromClient, x) == Reads(es, x, true, true) && Got(y.fromTarget, x) == Reads(es, x, false, true)
  {
    RunKeeps(INITIAL, es, y);
    ReadsFromTheStart(es, y, x);
    assert Through(y.sentClient, y.toSlave, y.toTarget, y.s, x);
    assert Through(y.sentTarget, y.toMaster, y.toClient, y.m, x);
  }

  /** No byte is lost if and only if SendToTask took every read: while the writing end lives, what it has
      written and what is on its way is all that was read at the other end, in either direction. */
  lemma NothingLostIff(es: seq<Event>, y: State, x: Id)
    requires Run(INITIAL, es, y)
    ensures Alive(y.s, x) ==> (Got(y.toTarget, x) + Flight(y.toSlave, x) == Got(y.fromClient, x) <==> AllSent(es, x, true))
    ensures Alive(y.m, x) ==> (Got(y.toClient, x) + Flight(y.toMaster, x) == Got(y.fromTarget, x) <==> AllSent(es, x, false))
    ensures AllSent(es, x, true) ==> Got(y.toTarget, x) <= Got(y.fromClient, x)
    ensures AllSent(es, x, false) ==> Got(y.toClient, x) <= Got(y.fromTarget, x)
  {
    BytesConserved(es, y, x);
    SentLengths(INITIAL, es, y, x, true);
    SentLengths(INITIAL, es, y, x, false);
  }

  lemma AfterRead(y: State, z: State, x: Id, bytes: seq<byte>, sent: bool)
    requires z == ReadAtMaster(y, x, bytes, sent)
    ensures z.m == y.m && z.s == y.s && z.toTarget == y.toTarget && Got(z.fromClient, x) == Got(y.fromClient, x) + bytes
    ensures z.toSlave == if sent then y.toSlave + [Data(x, bytes)] else y.toSlave
  {
  }

  lemma AfterTaken(y: State, x: Id, bytes: seq<byte>)
    requires y.toSlave == [Data(x, bytes)] && Alive(y.s, x)
    ensures var z := Step(y, SlaveTakes(true));
      && z.m == y.m && z.s == y.s && z.fromClient == y.fromClient && z.toSlave == []
      && Got(z.toTarget, x) == Got(y.toTarget, x) + bytes
  {
  }

  /** A read that SendToTask does not take leaves a hole: the bytes behind it reach the target, both ends go
      on, and neither learns of it. */
  lemma UnsentReadLeavesHole(y: State, x: Id, lost: seq<byte>, next: seq<byte>) returns (z: State)
    requires Alive(y.m, x) && y.m[x].reading && Alive(y.s, x) && y.toSlave == []
    requires Readable(lost, false) && Readable(next, true)
    ensures Run(y, [MasterReads(x, lost, false), MasterReads(x, next, true), SlaveTakes(true)], z)
    ensures z.m == y.m && z.s == y.s && z.toSlave == []
    ensures Got(z.fromClient, x) == Got(y.fromClient, x) + lost + next && Got(z.toTarget, x) == Got(y.toTarget, x) + next
  {
    var y1 := Step(y, MasterReads(x, lost, false));
    AfterRead(y, y1, x, lost, false);
    var y2 := Step(y1, MasterReads(x, next, true));
    AfterRead(y1, y2, x, next, true);
    AfterTaken(y2, x, next);
    z := Step(y2, SlaveTakes(true));
    RunOfThree(y, y1, y2, MasterReads(x, lost, false), MasterReads(x, next, true), SlaveTakes(true));
  }

  lemma RunOfThree(y: State, y1: State, y2: State, a: Event, b: Event, c: Event)
    requires Enabled(y, a) && y1 == Step(y, a) && Enabled(y1, b) && y2 == Step(y1, b) && Enabled(y2, c)
    ensures Run(y, [a, b, c], Step(y2, c))
  {
    assert [a, b, c][1..] == [b, c] && [b, c][1..] == [c] && [c][1..] == [];
    assert Run(y2, [c], Step(y2, c));
    assert Run(y1, [b, c], Step(y2, c));
  }

  /** A connection that both ends read, with nothing on its way. */
  function Established(x: Id): State
  {
    INITIAL.(m := map[x := Point(true, true, false)], s := map[x := Point(true, true, false)],
             used := {x}, asked := {x}, connected := {x}, begun := {x})
  }

  /** Such a connection is reached, so that the hole occurs in runs from the start. */
  lemma EstablishedIsReached(x: Id)
    ensures Run(INITIAL, [Accept(x), SlaveTakes(true), Connected(x, true, true), MasterTakes(true)], Established(x))
  {
    var es := [Accept(x), SlaveTakes(true), Connected(x, true, true), MasterTakes(true)];
    var y1 := Step(INITIAL, es[0]);
    var y2 := Step(y1, es[1]);
    assert y2 == INITIAL.(m := map[x := Point(true, false, false)], s := map[x := Point(false, false, false)],
                          used := {x}, asked := {x});
    var y3 := Step(y2, es[2]);
    assert y3.toMaster == [ActiveMaster(x)];
    assert Step(y3, es[3]) == Established(x);
    assert es[1..][1..] == es[2..] && es[2..][1..] == es[3..] && es[3..][1..] == [];
    assert Run(y3, es[3..], Established(x));
    assert Run(y2, es[2..], Established(x));
  }
}
