/** The life of the contexts of a forward task (src/common/forward.cpp): created and counted, looked up
    by id, freed any number of times from any side, and deleted in a deferred call. Contexts are named by
    the order of their creation; ids are arbitrary, equal ones included. */
module ForwardContexts {

  /** Not freed yet; handle being closed; deletion queued for the next turn of the loop. */
  datatype Phase = Live | Closing | Queued

  datatype Context = Context(id: nat, finish: bool, phase: Phase)

  datatype State = State(
    created: nat,                   // MallocContext calls so far
    contexts: map<nat, Context>,    // those not deleted
    byId: map<nat, nat>,            // mapCtxPoint
    refCount: nat,
    queue: seq<nat>,                // deferred deletions
    notified: seq<nat>,             // ids for which CMD_FORWARD_FREE_CONTEXT was sent
    deletions: seq<nat>)            // history: contexts deleted, in order

  const INITIAL := State(0, map[], map[], 0, [], [], [])

  datatype Event =
    | Malloc(id: nat)
    | NewId(p: nat, id: nat)                              // SlaveConnect takes over the peer's id
    | Free(p: nat, notify: bool, handleOpen: bool)        // FreeContext through a pointer
    | FreeById(id: nat, notify: bool, handleOpen: bool)
    | CloseCallback(p: nat)
    | Deferred(i: nat)                                    // the i-th queued deletion runs
    | ClearMap                                            // StopTask, before it frees what was mapped

  function Created(s: State, id: nat): State
  {
    s.(created := s.created + 1, contexts := s.contexts[s.created := Context(id, false, Live)],
       byId := s.byId[id := s.created], refCount := s.refCount + 1)
  }

  /** OP_UPDATE after the id of the context was replaced. */
  function UpdateId(s: State, p: nat, id: nat): State
    requires p in s.contexts
  {
    s.(contexts := s.contexts[p := s.contexts[p].(id := id)], byId := (s.byId - {s.contexts[p].id})[id := p])
  }

  /** FreeContextCallBack: the deletion itself waits for the next turn of the loop. */
  function Enqueue(s: State, p: nat): State
    requires p in s.contexts
  {
    s.(contexts := s.contexts[p := s.contexts[p].(phase := Queued)], queue := s.queue + [p])
  }

  /** A context that is being freed for the first time: the peer is told if it is to be, the flag is set. */
  function Marked(s: State, p: nat, notify: bool): State
    requires p in s.contexts
  {
    var c := s.contexts[p];
    s.(notified := if notify then s.notified + [c.id] else s.notified,
       contexts := s.contexts[p := Context(c.id, true, Closing)])
  }

  /** FreeContext; `handleOpen` says whether there is a handle to close, so that the callback comes later. */
  function Freed(s: State, p: nat, notify: bool, handleOpen: bool): State
    requires p in s.contexts
  {
    if s.contexts[p].finish then s
    else
      var s := Marked(s, p, notify);
      if handleOpen then s else Enqueue(s, p)
  }

  function FreeFound(s: State, id: nat, notify: bool, handleOpen: bool): State
    requires id in s.byId ==> s.byId[id] in s.contexts
  {
    if id in s.byId then Freed(s, s.byId[id], notify, handleOpen) else s
  }

  function Delete(s: State, i: nat): State
    requires i < |s.queue| && s.queue[i] in s.contexts
  {
    var p := s.queue[i];
    s.(byId := s.byId - {s.contexts[p].id}, contexts := s.contexts - {p},
       refCount := if s.refCount > 0 then s.refCount - 1 else 0,
       queue := s.queue[..i] + s.queue[i + 1..], deletions := s.deletions + [p])
  }

  predicate Enabled(s: State, e: Event)
  {
    match e
    case Malloc(_) => true
    case NewId(p, _) => p in s.contexts && s.contexts[p].phase.Live?
    case Free(p, _, _) => p in s.contexts
    case FreeById(id, _, _) => id in s.byId ==> s.byId[id] in s.contexts
    case CloseCallback(p) => p in s.contexts && s.contexts[p].phase.Closing?
    case Deferred(i) => i < |s.queue| && s.queue[i] in s.contexts
    case ClearMap => true
  }

  function Step(s: State, e: Event): State
    requires Enabled(s, e)
  {
    match e
    case Malloc(id) => Created(s, id)
    case NewId(p, id) => UpdateId(s, p, id)
    case Free(p, notify, handleOpen) => Freed(s, p, notify, handleOpen)
    case FreeById(id, notify, handleOpen) => FreeFound(s, id, notify, handleOpen)
    case CloseCallback(p) => Enqueue(s, p)
    case Deferred(i) => Delete(s, i)
    case ClearMap => s.(byId := map[])
  }

  ghost predicate NoRepeat(q: seq<nat>)
  {
    forall i, j :: 0 <= i < j < |q| ==> q[i] != q[j]
  }

  ghost predicate ContextsOk(s: State)
  {
    && s.refCount == |s.contexts|
    && |s.contexts| + |s.deletions| == s.created
    && (forall p :: p in s.contexts ==> p < s.created && s.contexts[p].finish == !s.contexts[p].phase.Live?)
  }

  /** A queued context is queued once, and the map never leads to a deleted one. */
  ghost predicate QueueOk(s: State)
  {
    && NoRepeat(s.queue)
    && (forall p :: p in s.queue <==> p in s.contexts && s.contexts[p].phase.Queued?)
    && (forall id :: id in s.byId ==> s.byId[id] in s.contexts && s.contexts[s.byId[id]].id == id)
  }

  ghost predicate DeletionsOk(s: State)
  {
    && NoRepeat(s.deletions)
    && forall i :: 0 <= i < |s.deletions| ==> s.deletions[i] < s.created && s.deletions[i] !in s.contexts
  }

  ghost predicate Inv(s: State)
  {
    ContextsOk(s) && QueueOk(s) && DeletionsOk(s)
  }

  lemma MapSizes(m: map<nat, Context>, p: nat, c: Context)
    ensures |m[p := c]| == |m| + if p in m then 0 else 1
    ensures p in m ==> |m - {p}| == |m| - 1
  {
    var n := m[p := c];
    if p in m {
      assert n.Keys == m.Keys;
      assert m.Keys == (m - {p}).Keys + {p};
    } else {
      assert n.Keys == m.Keys + {p};
    }
  }

  lemma MallocKeeps(s: State, id: nat)
    requires Inv(s)
    ensures Inv(Created(s, id))
  {
    MapSizes(s.contexts, s.created, Context(id, false, Live));
  }

  lemma EnqueueKeeps(s: State, p: nat)
    requires Inv(s) && p in s.contexts && s.contexts[p].phase.Closing?
    ensures Inv(Enqueue(s, p))
  {
    MapSizes(s.contexts, p, s.contexts[p].(phase := Queued));
    assert p !in s.queue;
    assert forall q :: q in Enqueue(s, p).queue <==> q in s.queue || q == p;
  }

  lemma MarkedKeeps(s: State, p: nat, notify: bool)
    requires Inv(s) && p in s.contexts && !s.contexts[p].finish
    ensures Inv(Marked(s, p, notify)) && Marked(s, p, notify).contexts[p].phase.Closing?
  {
    MapSizes(s.contexts, p, Context(s.contexts[p].id, true, Closing));
  }

  lemma FreeKeeps(s: State, p: nat, notify: bool, handleOpen: bool)
    requires Inv(s) && p in s.contexts
    ensures Inv(Freed(s, p, notify, handleOpen))
  {
    if !s.contexts[p].finish {
      MarkedKeeps(s, p, notify);
      if !handleOpen {
        EnqueueKeeps(Marked(s, p, notify), p);
      }
    }
  }

  lemma RemoveAt(q: seq<nat>, i: nat)
    requires i < |q| && NoRepeat(q)
    ensures var r := q[..i] + q[i + 1..]; NoRepeat(r) && forall p :: p in r <==> p in q && p != q[i]
  {
    var r := q[..i] + q[i + 1..];
    forall p | p in q && p != q[i] ensures p in r {
      var k :| 0 <= k < |q| && q[k] == p;
      assert r[if k < i then k else k - 1] == p;
    }
    forall k | 0 <= k < |r| ensures r[k] == q[if k < i then k else k + 1] {
    }
  }

  lemma DeleteKeeps(s: State, i: nat)
    requires Inv(s) && i < |s.queue|
    ensures Inv(Delete(s, i))
  {
    var p := s.queue[i];
    assert p in s.queue;
    MapSizes(s.contexts, p, s.contexts[p]);
    RemoveAt(s.queue, i);
  }

  lemma StepKeepsInv(s: State, e: Event)
    requires Inv(s) && Enabled(s, e)
    ensures Inv(Step(s, e))
  {
    match e
    case Malloc(id) => MallocKeeps(s, id);
    case NewId(p, id) => MapSizes(s.contexts, p, s.contexts[p].(id := id));
    case Free(p, notify, handleOpen) => FreeKeeps(s, p, notify, handleOpen);
    case FreeById(id, notify, handleOpen) =>
      if id in s.byId {
        FreeKeeps(s, s.byId[id], notify, handleOpen);
      }
    case CloseCallback(p) => EnqueueKeeps(s, p);
    case Deferred(i) => DeleteKeeps(s, i);
    case ClearMap =>
  }

  ghost predicate Run(s: State, es: seq<Event>, t: State)
    decreases |es|
  {
    if es == [] then t == s else Enabled(s, es[0]) && Run(Step(s, es[0]), es[1..], t)
  }

  lemma {:induction false} RunKeepsInv(s: State, es: seq<Event>, t: State)
    requires Inv(s) && Run(s, es, t)
    ensures Inv(t)
    decreases |es|
  {
    if es != [] {
      StepKeepsInv(s, es[0]);
      RunKeepsInv(Step(s, es[0]), es[1..], t);
    }
  }

  lemma {:induction false} RunSnoc(s: State, es: seq<Event>, t: State, e: Event)
    requires Run(s, es, t) && Enabled(t, e)
    ensures Run(s, es + [e], Step(t, e))
    decreases |es|
  {
    if es == [] {
      assert [e][1..] == [];
    } else {
      assert (es + [e])[1..] == es[1..] + [e];
      RunSnoc(Step(s, es[0]), es[1..], t, e);
    }
  }

  predicate ReadyForRelease(s: State) { s.refCount == 0 }

  /** In every run: refCount is the number of contexts created and not deleted; no context is deleted
      twice; every lookup leads to a context that still exists; and the task is not ready for release
      while a deletion is queued or a handle is being closed. */
  lemma ContextsAlways(es: seq<Event>, s: State)
    requires Run(INITIAL, es, s)
    ensures s.refCount == |s.contexts| == s.created - |s.deletions|
    ensures NoRepeat(s.deletions) && forall i :: 0 <= i < |s.deletions| ==> s.deletions[i] !in s.contexts
    ensures forall id :: id in s.byId ==> s.byId[id] in s.contexts
    ensures ReadyForRelease(s) <==> s.contexts == map[]
    ensures ReadyForRelease(s) ==> s.queue == []
  {
    RunKeepsInv(INITIAL, es, s);
    if s.contexts != map[] {
      var p :| p in s.contexts;
      MapSizes(s.contexts, p, s.contexts[p]);
    }
    if s.queue != [] {
      assert s.queue[0] in s.queue;
    }
  }

  // Whether a task gets ready for release once it is stopped.

  /** Every context has been freed; its handle may still be closing or its deletion queued. */
  ghost predicate AllFreed(contexts: map<nat, Context>)
  {
    forall p :: p in contexts ==> contexts[p].finish
  }

  /** Only the callbacks that are due: handles that close, and deferred deletions. */
  ghost predicate OnlyCallbacks(es: seq<Event>)
  {
    forall i :: 0 <= i < |es| ==> es[i].CloseCallback? || es[i].Deferred?
  }

  ghost predicate RunsOut(s: State, es: seq<Event>, t: State)
  {
    OnlyCallbacks(es) && Run(s, es, t) && ReadyForRelease(t)
  }

  lemma CallbackKeepsFreed(s: State, e: Event)
    requires Inv(s) && Enabled(s, e) && (e.CloseCallback? || e.Deferred?)
    ensures AllFreed(Step(s, e).contexts) <==> AllFreed(s.contexts)
  {
    StepKeepsInv(s, e);
    var t := Step(s, e);
    if e.Deferred? {
      assert s.queue[e.i] in s.queue;
      assert t.contexts == s.contexts - {s.queue[e.i]};
      forall p | p in s.contexts ensures p in t.contexts || s.contexts[p].finish {
      }
    } else {
      forall p | p in s.contexts ensures p in t.contexts && t.contexts[p].finish == s.contexts[p].finish {
      }
    }
  }

  lemma {:induction false} FreedByOthers(s: State, es: seq<Event>, t: State)
    requires Inv(s) && RunsOut(s, es, t)
    ensures AllFreed(s.contexts)
    decreases |es|
  {
    if es == [] {
      assert s.contexts == map[];
    } else {
      StepKeepsInv(s, es[0]);
      CallbackKeepsFreed(s, es[0]);
      FreedByOthers(Step(s, es[0]), es[1..], t);
    }
  }

  /** A callback that is due as long as a context is left. */
  lemma NextCallback(s: State) returns (e: Event)
    requires Inv(s) && AllFreed(s.contexts) && s.contexts != map[]
    ensures Enabled(s, e) && (e.CloseCallback? || e.Deferred?)
    ensures if s.queue == [] then e.CloseCallback? else e.Deferred?
  {
    if s.queue == [] {
      var p :| p in s.contexts;
      assert p !in s.queue;
      e := CloseCallback(p);
    } else {
      assert s.queue[0] in s.queue;
      e := Deferred(0);
    }
  }

  lemma CallbackSizes(s: State, e: Event)
    requires Inv(s) && Enabled(s, e)
    ensures e.Deferred? ==> |Step(s, e).contexts| == |s.contexts| - 1
    ensures e.CloseCallback? ==> |Step(s, e).contexts| == |s.contexts| && Step(s, e).queue != []
  {
    if e.Deferred? {
      MapSizes(s.contexts, s.queue[e.i], s.contexts[s.queue[e.i]]);
    } else if e.CloseCallback? {
      MapSizes(s.contexts, e.p, s.contexts[e.p].(phase := Queued));
    }
  }

  lemma {:induction false} CallbacksRunOut(s: State) returns (es: seq<Event>, t: State)
    requires Inv(s) && AllFreed(s.contexts)
    ensures RunsOut(s, es, t)
    decreases |s.contexts|, if s.queue == [] then 1 else 0
  {
    if s.contexts == map[] {
      es, t := [], s;
    } else {
      var e := NextCallback(s);
      StepKeepsInv(s, e);
      CallbackKeepsFreed(s, e);
      CallbackSizes(s, e);
      var rest;
      rest, t := CallbacksRunOut(Step(s, e));
      es := [e] + rest;
      assert es[1..] == rest;
    }
  }

  /** In every run: the callbacks that are due make the task ready for release if and only if every context
      has been freed. A context that no id leads to any more, because another was created or renamed to the
      same id, is not freed by StopTask, and keeps the task from its release. */
  lemma ReleasedIff(es: seq<Event>, s: State)
    requires Run(INITIAL, es, s)
    ensures (exists cs, t :: RunsOut(s, cs, t)) <==> AllFreed(s.contexts)
  {
    RunKeepsInv(INITIAL, es, s);
    if AllFreed(s.contexts) {
      var cs, t := CallbacksRunOut(s);
    }
    if cs, t :| RunsOut(s, cs, t) {
      FreedByOthers(s, cs, t);
    }
  }

  /** Freeing a context again changes nothing, whichever way it is reached. */
  lemma FreeTwice(s: State, p: nat, a: bool, b: bool, c: bool, d: bool)
    requires p in s.contexts
    ensures
      var once := Freed(s, p, a, b);
      p in once.contexts && Freed(once, p, c, d) == once
  {
  }

  /** The first freeing of a context: the peer is told once, by its id, if it is to be; with a handle to close
      the deletion waits for the callback, and without one it is queued at once. Nothing else changes. */
  lemma FirstFree(s: State, p: nat, notify: bool, handleOpen: bool)
    requires p in s.contexts && !s.contexts[p].finish
    ensures var t := Freed(s, p, notify, handleOpen);
      && t.notified == s.notified + (if notify then [s.contexts[p].id] else [])
      && t.queue == s.queue + (if handleOpen then [] else [p])
      && t.contexts == s.contexts[p := Context(s.contexts[p].id, true, if handleOpen then Closing else Queued)]
      && t.byId == s.byId && t.refCount == s.refCount && t.deletions == s.deletions && t.created == s.created
  {
  }

  /** Freeing by id frees the context the id leads to, and nothing if it leads nowhere. */
  lemma FreedById(s: State, id: nat, notify: bool, handleOpen: bool)
    requires Inv(s)
    ensures var t := FreeFound(s, id, notify, handleOpen);
      && (id !in s.byId ==> t == s)
      && (id in s.byId ==>
            && s.byId[id] in t.contexts && t.contexts[s.byId[id]].finish
            && (!s.contexts[s.byId[id]].finish && notify ==> t.notified == s.notified + [id]))
  {
    if id in s.byId && !s.contexts[s.byId[id]].finish {
      FirstFree(s, s.byId[id], notify, handleOpen);
    }
  }

  /** A context that takes over an id is found under it, and no longer under the one it had. */
  lemma IdTaken(s: State, p: nat, id: nat)
    requires p in s.contexts
    ensures var t := UpdateId(s, p, id);
      && id in t.byId && t.byId[id] == p && t.contexts[p] == s.contexts[p].(id := id)
      && (id != s.contexts[p].id ==> s.contexts[p].id !in t.byId)
      && (forall i :: i in s.byId && i != id && i != s.contexts[p].id ==> i in t.byId && t.byId[i] == s.byId[i])
      && (forall q :: q in s.contexts && q != p ==> q in t.contexts && t.contexts[q] == s.contexts[q])
  {
  }

  class Task {
    var created: nat
    var contexts: map<nat, Context>
    var mapCtxPoint: map<nat, nat>
    var refCount: nat
    var queue: seq<nat>
    var notified: seq<nat>
    ghost var deletions: seq<nat>

    ghost function View(): State
      reads this
    {
      State(created, contexts, mapCtxPoint, refCount, queue, notified, deletions)
    }

    ghost predicate Valid()
      reads this
    {
      Inv(View())
    }

    constructor ()
      ensures Valid() && View() == INITIAL
    {
      created, contexts, mapCtxPoint, refCount, queue, notified, deletions := 0, map[], map[], 0, [], [], [];
    }

    /** A context that never existed before, found under its id and counted; the others are left alone. */
    method MallocContext(id: nat) returns (ctx: nat)
      requires Valid()
      modifies this`created, this`contexts, this`mapCtxPoint, this`refCount
      ensures Valid() && View() == Step(old(View()), Malloc(id))
      ensures ctx !in old(contexts) && ctx !in deletions && ctx in contexts && !contexts[ctx].finish
      ensures id in mapCtxPoint && mapCtxPoint[id] == ctx && refCount == |contexts| == |old(contexts)| + 1
      ensures forall p :: p in old(contexts) ==> p in contexts && contexts[p] == old(contexts)[p]
    {
      MallocKeeps(View(), id);
      MapSizes(contexts, created, Context(id, false, Live));
      ctx := created;
      created := created + 1;
      contexts := contexts[ctx := Context(id, false, Live)];
      mapCtxPoint := mapCtxPoint[id := ctx];
      refCount := refCount + 1;
      assert View() == Created(old(View()), id);
    }

    /** The context is queued for deletion, once, and stays counted until then. */
    method FreeContextCallBack(ctx: nat)
      requires Valid() && ctx in contexts && contexts[ctx].phase.Closing?
      modifies this`contexts, this`queue
      ensures Valid() && View() == Enqueue(old(View()), ctx)
      ensures ctx in queue && ctx !in old(queue) && |contexts| == |old(contexts)|
    {
      EnqueueKeeps(View(), ctx);
      contexts := contexts[ctx := contexts[ctx].(phase := Queued)];
      queue := queue + [ctx];
    }

    /** However often it is called, a context is freed once, and the peer told of it at most once. */
    method FreeContext(ctx: nat, notifyRemote: bool, handleOpen: bool)
      requires Valid() && ctx in contexts
      modifies this`contexts, this`queue, this`notified
      ensures Valid() && View() == Freed(old(View()), ctx, notifyRemote, handleOpen)
      ensures ctx in contexts && contexts[ctx].finish && (old(contexts[ctx].finish) ==> View() == old(View()))
      ensures !old(contexts[ctx].finish) ==>
        && notified == old(notified) + (if notifyRemote then [old(contexts[ctx].id)] else [])
        && queue == old(queue) + (if handleOpen then [] else [ctx])
        && contexts[ctx].phase == if handleOpen then Closing else Queued
    {
      if contexts[ctx].finish {
        return;
      }
      FirstFree(View(), ctx, notifyRemote, handleOpen);
      MarkedKeeps(View(), ctx, notifyRemote);
      if notifyRemote {
        notified := notified + [contexts[ctx].id];
      }
      contexts := contexts[ctx := contexts[ctx].(finish := true, phase := Closing)];
      assert View() == Marked(old(View()), ctx, notifyRemote);
      if !handleOpen {
        FreeContextCallBack(ctx);
      }
    }

    /** The deferred call of FreeContextCallBack: the context is deleted for the first time, no id leads to
        it any more, and the task is ready for release exactly when it was the last one. */
    method DeleteNext(i: nat)
      requires Valid() && i < |queue|
      modifies this`mapCtxPoint, this`contexts, this`refCount, this`queue, this`deletions
      ensures Valid() && View() == Step(old(View()), Deferred(i))
      ensures var ctx := old(queue[i]);
        && ctx !in old(deletions) && ctx !in contexts && ctx !in queue && deletions == old(deletions) + [ctx]
        && forall id :: id in mapCtxPoint ==> mapCtxPoint[id] != ctx
      ensures refCount == |contexts| == |old(contexts)| - 1 && (ReadyForRelease(View()) <==> |old(contexts)| == 1)
      ensures forall p :: p in contexts ==> p in old(contexts) && contexts[p] == old(contexts)[p]
    {
      assert queue[i] in queue;
      DeleteKeeps(View(), i);
      RemoveAt(queue, i);
      MapSizes(contexts, queue[i], contexts[queue[i]]);
      var ctx := queue[i];
      queue := queue[..i] + queue[i + 1..];
      mapCtxPoint := mapCtxPoint - {contexts[ctx].id};
      contexts := contexts - {ctx};
      deletions := deletions + [ctx];
      if refCount > 0 {
        refCount := refCount - 1;
      }
      assert View() == Delete(old(View()), i);
    }

    /** The freeing loop of StopTask; `open` are the contexts with a handle to close. */
    method FreeAll(all: set<nat>, open: set<nat>) returns (ghost es: seq<Event>)
      requires Valid() && all <= contexts.Keys
      modifies this`contexts, this`queue, this`notified
      ensures Valid() && notified == old(notified) && Run(old(View()), es, View()) && forall i :: 0 <= i < |es| ==> es[i].Free?
      ensures OnlyFreed(old(contexts), contexts, all)
    {
      var todo := all;
      es := [];
      while todo != {}
        invariant Valid() && todo <= all && notified == old(notified)
        invariant OnlyFreed(old(contexts), contexts, all - todo)
        invariant Run(old(View()), es, View()) && forall i :: 0 <= i < |es| ==> es[i].Free?
        decreases todo
      {
        var ctx :| ctx in todo;
        FreedOnlyOne(View(), ctx, ctx in open);
        ghost var before := contexts;
        RunSnoc(old(View()), es, View(), Free(ctx, false, ctx in open));
        es := es + [Free(ctx, false, ctx in open)];
        FreeContext(ctx, false, ctx in open);
        OnlyFreedStep(old(contexts), before, contexts, all - todo, ctx);
        OneFewer(all, todo, ctx);
        todo := todo - {ctx};
      }
      assert all - {} == all;
    }

    /** Every mapped context is freed, the others are left alone, and nobody is notified. So every context
        is freed, and the callbacks due make the task ready for release, exactly when each was in the map
        or freed before. */
    method StopTask(open: set<nat>) returns (ghost es: seq<Event>)
      requires Valid()
      modifies this`mapCtxPoint, this`contexts, this`queue, this`notified
      ensures Valid() && mapCtxPoint == map[] && notified == old(notified)
      ensures Run(old(View()), [ClearMap] + es, View()) && forall i :: 0 <= i < |es| ==> es[i].Free?
      ensures OnlyFreed(old(contexts), contexts, old(mapCtxPoint).Values)
      ensures AllFreed(contexts) <==>
        forall p :: p in old(contexts) ==> p in old(mapCtxPoint).Values || old(contexts)[p].finish
    {
      var ctxs := mapCtxPoint.Values;
      mapCtxPoint := map[];
      assert View() == Step(old(View()), ClearMap);
      es := FreeAll(ctxs, open);
      assert ([ClearMap] + es)[1..] == es;
    }
  }

  /** Exactly the contexts in `ps` have been freed between two states of the task. */
  ghost predicate OnlyFreed(before: map<nat, Context>, after: map<nat, Context>, ps: set<nat>)
  {
    && before.Keys == after.Keys
    && forall p :: p in after ==> if p in ps then after[p].finish && after[p].id == before[p].id else after[p] == before[p]
  }

  lemma OneFewer(all: set<nat>, todo: set<nat>, p: nat)
    requires p in todo && todo <= all
    ensures all - (todo - {p}) == all - todo + {p}
  {
  }

  lemma FreedOnlyOne(s: State, p: nat, handleOpen: bool)
    requires p in s.contexts
    ensures var t := Freed(s, p, false, handleOpen);
      OnlyFreed(s.contexts, t.contexts, {p}) && t.notified == s.notified && t.byId == s.byId
  {
  }

  lemma OnlyFreedStep(a: map<nat, Context>, b: map<nat, Context>, c: map<nat, Context>, ps: set<nat>, p: nat)
    requires OnlyFreed(a, b, ps) && OnlyFreed(b, c, {p})
    ensures OnlyFreed(a, c, ps + {p})
  {
    forall q | q in c ensures if q in ps + {p} then c[q].finish && c[q].id == a[q].id else c[q] == a[q] {
      assert q in b;
    }
  }
}
