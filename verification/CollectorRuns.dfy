/** Whole runs of a program and its collector: any allocations, writes, closures, scope exits,
    coroutine deaths, root changes and collections, with the collector stopped, restarted or stressed
    (internal/gc/collector.go:187-193, 244-250, 282-357, internal/gc/sweep.go:17-100,
    internal/gc/intern.go:46-113). */
module CollectorRuns {
  import opened Values
  import opened ObjectGraph
  import opened HeapFields
  import opened Intern
  import opened CollectorModel

  datatype World = World(heap: Heap, threads: Threads, refs: seq<nat>, values: seq<Value>, active: seq<nat>,
                         stopped: bool, stressed: bool, alloc: nat, threshold: nat)

  /** New objects come with the address the arena gave out. */
  datatype Action =
    | Make(at: nat, o: Obj)
    | Put(r: nat, o: Obj)
    | MakeString(b: Bytes, at: nat)
    | MakeThread(at: nat, id: nat, fn: Value)
    | Capture(id: nat, i: nat, at: nat)
    | Stack(id: nat, stack: seq<Value>, xfer: seq<Value>)
    | Leave(id: nat, level: nat)
    | Die(id: nat)
    | Root(refs: seq<nat>, values: seq<Value>, ids: seq<nat>)
    | Stop(on: bool)
    | Stress(on: bool)
    | Poll
    | Safepoint(threadBytes: nat, arenaCap: nat)
    | Gc(threadBytes: nat, arenaCap: nat)

  ghost function WorldOf(c: Collector): World
    reads c
  {
    World(c.heap, c.threads, c.rootRefs, c.rootValues, c.active, c.stopped, c.stressMode,
          c.bytesAllocSince, c.threshold)
  }

  /** Some chain of fields leads to the object from a root. */
  ghost predicate ReachedIn(w: World, r: nat) {
    Reached(w.heap, w.threads, w.refs, w.values, w.active, r)
  }

  /** What a program can do: addresses are unused, and it passes only what it can hold. */
  predicate Can(h: Heap, ts: Threads, active: seq<nat>, a: Action) {
    match a
    case Make(at, o) => at != 0 && at !in h && !o.Str? && PlainOk(h[at := o], ts, o)
    case Put(r, o) => r in h && !h[r].Str? && !h[r].Thread? && !h[r].OpenUpval? && !o.Str? && PlainOk(h, ts, o)
    case MakeString(_, at) => at != 0 && at !in h
    case MakeThread(at, id, fn) => at != 0 && at !in h && id !in ts && RefsIn([fn]) <= h.Keys
    case Capture(id, i, at) => at != 0 && at !in h && id in ts && !ts[id].dead && i < |ts[id].stack|
    case Stack(id, stack, xfer) =>
      && id in ts && RefsIn(stack) + RefsIn(xfer) <= h.Keys && (id == MAIN ==> xfer == [])
      && forall i :: i in ts[id].open ==> i < |stack|
    case Leave(id, _) => id in ts
    case Die(id) => id in ts && id != MAIN && id !in active
    case Root(refs, values, ids) => RootsOk(h, refs, values, ids, ts)
    case _ => true
  }

  /** What is left is what chains of fields lead to from a root, and the count starts again. */
  ghost predicate Collected(w: World, arenaCap: nat, w': World) {
    && CollectedAs(w.heap, w.threads, w.refs, w.values, w.active, w'.heap, w'.threads)
    && w' == w.(heap := w'.heap, threads := w'.threads, alloc := 0, threshold := w'.threshold)
    && w'.threshold >= arenaCap / 16
  }

  ghost predicate Moves(size: Obj -> nat, w: World, a: Action, w': World)
    requires Can(w.heap, w.threads, w.active, a)
  {
    match a
    case Make(at, o) => w' == w.(heap := w.heap[at := o], alloc := w.alloc + size(o))
    case Put(r, o) => w' == w.(heap := w.heap[r := o])
    case MakeString(b, at) =>
      w' == if exists s :: s in w.heap && w.heap[s] == Str(b) then w
            else w.(heap := w.heap[at := Str(b)], alloc := w.alloc + size(Str(b)))
    case MakeThread(at, id, fn) =>
      w' == w.(heap := w.heap[at := Thread(id)], threads := w.threads[id := ThreadRecord(at, [], map[], fn, [], false)],
               alloc := w.alloc + size(Thread(id)))
    case Capture(id, i, at) =>
      w' == if i in w.threads[id].open then w
            else w.(heap := w.heap[at := OpenUpval(id, i)],
                    threads := w.threads[id := w.threads[id].(open := w.threads[id].open[i := at])],
                    alloc := w.alloc + size(OpenUpval(id, i)))
    case Stack(id, stack, xfer) => w' == w.(threads := w.threads[id := w.threads[id].(stack := stack, xfer := xfer)])
    case Leave(id, level) =>
      && id in w'.threads && ShutsAs(w.threads[id], level, w'.threads[id])
      && w' == w.(heap := w'.heap, threads := w.threads[id := w'.threads[id]]) && w'.heap.Keys == w.heap.Keys
      && forall u :: u in w.heap ==> u in w'.heap && ClosesAs(w.threads, id, level, w.heap[u], w'.heap[u])
    case Root(refs, values, ids) => w' == w.(refs := refs, values := values, active := ids)
    case Die(id) =>
      && w' == w.(heap := w'.heap,
                  threads := w.threads[id := w.threads[id].(open := map[], xfer := [], dead := true)])
      && w'.heap.Keys == w.heap.Keys
      && forall u :: u in w.heap ==> u in w'.heap && ClosesAs(w.threads, id, 0, w.heap[u], w'.heap[u])
    case Stop(on) => w' == w.(stopped := on)
    case Stress(on) => w' == w.(stressed := on)
    case Poll => w' == w
    case Safepoint(_, arenaCap) =>
      if !w.stopped && (w.stressed || w.alloc >= w.threshold) then Collected(w, arenaCap, w') else w' == w
    case Gc(_, arenaCap) => Collected(w, arenaCap, w')
  }

  /** Nothing dangles: every field and every root leads into the heap. Thread objects and records and open
      upvalues match, and no two string objects have the same bytes. */
  ghost predicate Sound(w: World) {
    && AllLead(w.heap, w.threads) && RootsLead(w.heap, w.threads, w.refs, w.values, w.active)
    && ThreadsOk(w.heap, w.threads) && NoDangling(w.heap, w.threads)
    && RootsOk(w.heap, w.refs, w.values, w.active, w.threads)
    && forall r, s :: r in w.heap && s in w.heap && w.heap[r].Str? && w.heap[r] == w.heap[s] ==> r == s
  }

  ghost predicate Steps(size: Obj -> nat, w: World, a: Action, w': World) {
    if Can(w.heap, w.threads, w.active, a) then Moves(size, w, a, w') else w' == w
  }

  lemma ValidIsSound(c: Collector)
    requires c.Valid()
    ensures Sound(WorldOf(c))
  {
    hide ThreadsOk, NoDangling, RootsOk, BucketsOk, AllLead, RootsLead;
    var w := WorldOf(c);
    HeapLeads(w.heap, w.threads);
    RootsLeading(w.heap, w.threads, w.refs, w.values, w.active);
    forall r, s | r in w.heap && s in w.heap && w.heap[r].Str? && w.heap[r] == w.heap[s] ensures r == s {
      assert TextsOf(w.heap)[r] == TextsOf(w.heap)[s];
    }
  }

  method Control(c: Collector, a: Action)
    requires c.Valid() && !c.collecting && Can(c.heap, c.threads, c.active, a)
    requires a.Stop? || a.Stress? || a.Poll? || a.Safepoint? || a.Gc?
    modifies c
    ensures c.Valid() && !c.collecting
    ensures Moves(c.sizeOf, old(WorldOf(c)), a, WorldOf(c))
  {
    hide Collector.Valid, RootsOk, SurvivingHeap, SurvivingThreads, Live, Edges, RootSet, CollectedAs, AllLead;
    match a
    case Stop(on) => c.SetStopped(on);
    case Stress(on) => c.SetStressMode(on);
    case Poll => c.SetGCPendingRef();
    case Safepoint(threadBytes, arenaCap) => c.MaybeCollect(threadBytes, arenaCap);
    case Gc(threadBytes, arenaCap) => c.Collect(threadBytes, arenaCap);
  }

  method Create(c: Collector, a: Action)
    requires c.Valid() && !c.collecting && Can(c.heap, c.threads, c.active, a)
    requires a.Make? || a.MakeString? || a.MakeThread? || a.Capture?
    modifies c
    ensures c.Valid() && !c.collecting
    ensures Moves(c.sizeOf, old(WorldOf(c)), a, WorldOf(c))
  {
    hide Collector.Valid, Collector.InOrder, Collector.Idle, PlainOk, RootsOk, Live, Edges, RootSet, RefsIn;
    match a
    case Make(at, o) => c.NewObject(at, o);
    case MakeString(b, at) => var _ := c.InternString(b, at);
    case MakeThread(at, id, fn) => c.NewThread(at, id, fn);
    case Capture(id, i, at) => var _ := c.FindOrCreateUpval(id, i, at);
  }

  method Change(c: Collector, a: Action)
    requires c.Valid() && !c.collecting && Can(c.heap, c.threads, c.active, a)
    requires a.Put? || a.Stack? || a.Leave? || a.Die? || a.Root?
    modifies c
    ensures c.Valid() && !c.collecting
    ensures Moves(c.sizeOf, old(WorldOf(c)), a, WorldOf(c))
  {
    hide Collector.Valid, Collector.InOrder, Collector.Idle, PlainOk, RootsOk, Live, Edges, RootSet, ClosedFrom;
    hide UpvalValue, RefsIn, Trimmed, CollectedAs, ClosesAs, ShutsAs;
    match a
    case Put(r, o) => c.Write(r, o);
    case Stack(id, stack, xfer) => c.SetStack(id, stack, xfer);
    case Leave(id, level) => c.LeaveScope(id, level);
    case Die(id) => c.Die(id);
    case Root(refs, values, ids) => c.SetRoots(refs, values, ids);
  }

  method Perform(c: Collector, a: Action)
    requires c.Valid() && !c.collecting && Can(c.heap, c.threads, c.active, a)
    modifies c
    ensures c.Valid() && !c.collecting
    ensures Moves(c.sizeOf, old(WorldOf(c)), a, WorldOf(c))
  {
    hide *;
    if a.Make? || a.MakeString? || a.MakeThread? || a.Capture? {
      Create(c, a);
    } else if a.Put? || a.Stack? || a.Leave? || a.Die? || a.Root? {
      Change(c, a);
    } else {
      Control(c, a);
    }
  }

  /** Any run: every action does just what it should to the world, and the world is sound
      throughout. Actions that cannot be are skipped. */
  method Run(c: Collector, actions: seq<Action>) returns (ghost worlds: seq<World>)
    requires c.Valid() && !c.collecting
    modifies c
    ensures c.Valid() && !c.collecting
    ensures |worlds| == |actions| + 1 && worlds[0] == old(WorldOf(c)) && worlds[|actions|] == WorldOf(c)
    ensures forall k :: 0 <= k <= |actions| ==> Sound(worlds[k])
    ensures forall k :: 0 <= k < |actions| ==> Steps(c.sizeOf, worlds[k], actions[k], worlds[k + 1])
  {
    hide Collector.Valid, Sound, Moves, Can;
    ValidIsSound(c);
    worlds := [WorldOf(c)];
    var k := 0;
    while k < |actions|
      invariant 0 <= k <= |actions| && c.Valid() && !c.collecting
      invariant |worlds| == k + 1 && worlds[0] == old(WorldOf(c)) && worlds[k] == WorldOf(c)
      invariant forall j :: 0 <= j <= k ==> Sound(worlds[j])
      invariant forall j :: 0 <= j < k ==> Steps(c.sizeOf, worlds[j], actions[j], worlds[j + 1])
    {
      if Can(c.heap, c.threads, c.active, actions[k]) {
        Perform(c, actions[k]);
      }
      ValidIsSound(c);
      worlds := worlds + [WorldOf(c)];
      k := k + 1;
    }
  }

  /** One step takes nothing away but what it collects, and that no chain of fields led to from a root. */
  lemma StepFrees(size: Obj -> nat, w: World, a: Action, w': World, r: nat)
    requires Steps(size, w, a, w') && r in w.heap && r !in w'.heap
    ensures (a.Gc? || a.Safepoint?) && !ReachedIn(w, r)
  {
    hide Reached, LeftAs, ClosesAs, ShutsAs, PlainOk, RootsOk;
  }

  /** Over any run: an object that is gone was freed by a collection at a moment when no chain of fields
      led to it from a root. */
  lemma {:induction false} FreedUnreached(size: Obj -> nat, ws: seq<World>, actions: seq<Action>, i: nat, j: nat,
                                          r: nat)
    returns (k: nat)
    requires |ws| == |actions| + 1 && i <= j <= |actions|
    requires forall n :: 0 <= n < |actions| ==> Steps(size, ws[n], actions[n], ws[n + 1])
    requires r in ws[i].heap && r !in ws[j].heap
    ensures i <= k < j && (actions[k].Gc? || actions[k].Safepoint?)
    ensures r in ws[k].heap && !ReachedIn(ws[k], r) && r !in ws[k + 1].heap
    decreases j
  {
    hide Steps, ReachedIn;
    if r in ws[j - 1].heap {
      StepFrees(size, ws[j - 1], actions[j - 1], ws[j], r);
      k := j - 1;
    } else {
      k := FreedUnreached(size, ws, actions, i, j - 1, r);
    }
  }
}
