/** The mark-sweep collector (internal/gc/collector.go, mark.go, sweep.go, intern.go), run without
    finalizers. */
module CollectorModel {
  import opened Values
  import opened ObjectGraph
  import opened HeapFields
  import opened Tricolor
  import opened Intern

  function TextsOf(h: Heap): Texts {
    map r | r in h && h[r].Str? :: h[r].bytes
  }

  class Collector {
    const hash: Bytes -> nat
    const sizeOf: Obj -> nat

    var heap: Heap
    var color: Colors
    var gcnext: map<nat, nat>
    var threads: Threads

    var sweepHead: nat
    var currentWhite: bool
    var gray: seq<nat>
    var weakList: seq<nat>

    /** Globals, registry, literals, metatables and pinned objects; the shadow stack and other
        values kept outside the heap; the running thread and those waiting on the resume chain. */
    var rootRefs: seq<nat>
    var rootValues: seq<Value>
    var active: seq<nat>

    var buckets: Buckets
    var strCount: nat

    /** Pacing: bytes allocated since the last collection and the count that starts the next one;
        `pendingFlag` is the word compiled loops poll, when one is installed. */
    var threshold: nat
    var bytesAllocSince: nat
    var liveBytesAfterSweep: nat
    const pauseRatio: nat
    var stopped: bool
    var stressMode: bool
    var collecting: bool
    var pendingInstalled: bool
    var pendingLast: bool
    var pendingFlag: bool

    ghost var chain: seq<nat>

    /** Between operations: every object is on the sweep chain, has the candidate colour, and holds
        only allocated references; the intern table lists exactly the strings. */
    ghost predicate Valid()
      reads this
    {
      && InOrder()
      && Idle()
    }

    ghost predicate InOrder()
      reads `heap, `threads, `rootRefs, `rootValues, `active, `buckets, `strCount
    {
      && ThreadsOk(heap, threads) && NoDangling(heap, threads)
      && RootsOk(heap, rootRefs, rootValues, active, threads)
      && InternOk(buckets, strCount, TextsOf(heap), hash)
    }

    ghost predicate Idle()
      reads `heap, `color, `gcnext, `sweepHead, `chain, `currentWhite, `gray, `weakList
      reads `stopped, `stressMode, `bytesAllocSince, `threshold, `pendingInstalled, `pendingLast, `pendingFlag
    {
      && OnChain()
      && (forall r :: r in color ==> color[r] == DeadWhite())
      && gray == [] && weakList == []
      && PendingOk()
    }

    /** Every object has a header and is on the sweep chain. */
    ghost predicate OnChain()
      reads `heap, `color, `gcnext, `sweepHead, `chain
    {
      && heap.Keys == color.Keys == gcnext.Keys
      && ChainOk(sweepHead, gcnext, chain)
      && forall r :: r in heap <==> r in chain
    }

    /** Whether a safepoint would collect now. */
    predicate PendingNow()
      reads `stopped, `stressMode, `bytesAllocSince, `threshold
    {
      !stopped && (stressMode || bytesAllocSince >= threshold)
    }

    /** The polled flag says exactly that. */
    ghost predicate PendingOk()
      reads `stopped, `stressMode, `bytesAllocSince, `threshold, `pendingInstalled, `pendingLast, `pendingFlag
    {
      pendingInstalled ==> pendingLast == PendingNow() && pendingFlag == pendingLast
    }

    method UpdatePending()
      requires pendingInstalled ==> pendingFlag == pendingLast
      modifies `pendingLast, `pendingFlag
      ensures PendingOk()
      ensures pendingInstalled ==> pendingFlag == (!stopped && (stressMode || bytesAllocSince >= threshold))
    {
      if !pendingInstalled {
        return;
      }
      var now := PendingNow();
      if now == pendingLast {
        return;
      }
      pendingLast := now;
      pendingFlag := now;
    }

    function DeadWhite(): Color
      reads `currentWhite
    {
      White(!currentWhite)
    }

    ghost function G(): Graph
      reads `heap, `threads
    {
      Edges(heap, threads)
    }

    // ---- marking ----

    /** Grays an unmarked object and pushes it. */
    method MarkRef(ref: nat, ghost rs: set<nat>, ghost cur: nat)
      requires Marking(G(), rs, color, gray, DeadWhite(), cur)
      requires May(G(), rs, ref)
      modifies `color, `gray
      ensures Marking(G(), rs, color, gray, DeadWhite(), cur)
      ensures Seen(color, DeadWhite(), ref) && Onward(old(color), color, DeadWhite())
      ensures |gray| + |Unmarked(color, DeadWhite())| == old(|gray| + |Unmarked(color, DeadWhite())|)
    {
      hide Unmarked, GrayOk, ScannedObject, Edges;
      if ref == 0 {
        return;
      }
      if color[ref] != DeadWhite() {
        return;
      }
      MarkStep(G(), rs, color, gray, DeadWhite(), cur, ref);
      color := color[ref := Gray];
      gray := gray + [ref];
    }

    method MarkValue(v: Value, ghost rs: set<nat>, ghost cur: nat)
      requires Marking(G(), rs, color, gray, DeadWhite(), cur)
      requires MayValue(G(), rs, v)
      modifies `color, `gray
      ensures Marking(G(), rs, color, gray, DeadWhite(), cur)
      ensures SeenValue(color, DeadWhite(), v) && Onward(old(color), color, DeadWhite())
      ensures |gray| + |Unmarked(color, DeadWhite())| == old(|gray| + |Unmarked(color, DeadWhite())|)
    {
      if v.Ref? {
        MarkRef(v.ref, rs, cur);
      }
    }

    method MarkValues(vs: seq<Value>, ghost rs: set<nat>, ghost cur: nat)
      requires Marking(G(), rs, color, gray, DeadWhite(), cur)
      requires AllMay(G(), rs, RefsIn(vs))
      modifies `color, `gray
      ensures Marking(G(), rs, color, gray, DeadWhite(), cur)
      ensures AllSeen(color, DeadWhite(), RefsIn(vs)) && Onward(old(color), color, DeadWhite())
      ensures |gray| + |Unmarked(color, DeadWhite())| == old(|gray| + |Unmarked(color, DeadWhite())|)
    {
      hide Unmarked, Marking, May, Seen, Edges;
      var i := 0;
      while i < |vs|
        invariant 0 <= i <= |vs|
        invariant Marking(G(), rs, color, gray, DeadWhite(), cur)
        invariant Onward(old(color), color, DeadWhite())
        invariant AllSeen(color, DeadWhite(), RefsIn(vs[..i]))
        invariant |gray| + |Unmarked(color, DeadWhite())| == old(|gray| + |Unmarked(color, DeadWhite())|)
      {
        ghost var was := color;
        assert vs[i] in vs;
        MarkValue(vs[i], rs, cur);
        SeenStays(was, color, DeadWhite(), RefsIn(vs[..i]));
        assert vs[..i + 1] == vs[..i] + [vs[i]];
        i := i + 1;
      }
      assert vs[..|vs|] == vs;
    }

    method MarkRefs(refs: seq<nat>, ghost rs: set<nat>, ghost cur: nat)
      requires Marking(G(), rs, color, gray, DeadWhite(), cur)
      requires AllMay(G(), rs, set r | r in refs)
      modifies `color, `gray
      ensures Marking(G(), rs, color, gray, DeadWhite(), cur)
      ensures AllSeen(color, DeadWhite(), set r | r in refs) && Onward(old(color), color, DeadWhite())
      ensures |gray| + |Unmarked(color, DeadWhite())| == old(|gray| + |Unmarked(color, DeadWhite())|)
    {
      hide Unmarked, Marking, May, Seen, Edges;
      var i := 0;
      while i < |refs|
        invariant 0 <= i <= |refs|
        invariant Marking(G(), rs, color, gray, DeadWhite(), cur)
        invariant Onward(old(color), color, DeadWhite())
        invariant AllSeen(color, DeadWhite(), set r | r in refs[..i])
        invariant |gray| + |Unmarked(color, DeadWhite())| == old(|gray| + |Unmarked(color, DeadWhite())|)
      {
        ghost var was := color;
        assert refs[i] in refs;
        MarkRef(refs[i], rs, cur);
        SeenStays(was, color, DeadWhite(), set r | r in refs[..i]);
        assert refs[..i + 1] == refs[..i] + [refs[i]];
        i := i + 1;
      }
      assert refs[..|refs|] == refs;
    }

    /** The sides of a table's nodes that are not weak. */
    method MarkNodes(nodes: seq<Slot>, weakKey: bool, weakVal: bool, ghost rs: set<nat>, ghost cur: nat)
      requires Marking(G(), rs, color, gray, DeadWhite(), cur)
      requires !weakKey ==> AllMay(G(), rs, KeyRefs(nodes))
      requires !weakVal ==> AllMay(G(), rs, ValRefs(nodes))
      modifies `color, `gray
      ensures Marking(G(), rs, color, gray, DeadWhite(), cur)
      ensures !weakKey ==> AllSeen(color, DeadWhite(), KeyRefs(nodes))
      ensures !weakVal ==> AllSeen(color, DeadWhite(), ValRefs(nodes))
      ensures Onward(old(color), color, DeadWhite())
      ensures |gray| + |Unmarked(color, DeadWhite())| == old(|gray| + |Unmarked(color, DeadWhite())|)
    {
      hide Unmarked, Marking, May, Seen, Edges;
      var i := 0;
      while i < |nodes|
        invariant 0 <= i <= |nodes|
        invariant Marking(G(), rs, color, gray, DeadWhite(), cur)
        invariant Onward(old(color), color, DeadWhite())
        invariant !weakKey ==> AllSeen(color, DeadWhite(), KeyRefs(nodes[..i]))
        invariant !weakVal ==> AllSeen(color, DeadWhite(), ValRefs(nodes[..i]))
        invariant |gray| + |Unmarked(color, DeadWhite())| == old(|gray| + |Unmarked(color, DeadWhite())|)
      {
        ghost var was := color;
        assert nodes[i] in nodes;
        if !weakKey {
          MarkValue(nodes[i].key, rs, cur);
          SeenStays(was, color, DeadWhite(), KeyRefs(nodes[..i]));
        }
        SeenStays(was, color, DeadWhite(), if weakVal then {} else ValRefs(nodes[..i]));
        ghost var mid := color;
        if !weakVal {
          MarkValue(nodes[i].val, rs, cur);
          SeenStays(mid, color, DeadWhite(), ValRefs(nodes[..i]));
        }
        SeenStays(mid, color, DeadWhite(), if weakKey then {} else KeyRefs(nodes[..i]) + RefsIn([nodes[i].key]));
        assert nodes[..i + 1] == nodes[..i] + [nodes[i]];
        i := i + 1;
      }
      assert nodes[..|nodes|] == nodes;
    }

    /** A thread's open upvalues. */
    method MarkOpen(open: map<nat, nat>, ghost rs: set<nat>, ghost cur: nat)
      requires Marking(G(), rs, color, gray, DeadWhite(), cur)
      requires AllMay(G(), rs, open.Values)
      modifies `color, `gray
      ensures Marking(G(), rs, color, gray, DeadWhite(), cur)
      ensures AllSeen(color, DeadWhite(), open.Values) && Onward(old(color), color, DeadWhite())
      ensures |gray| + |Unmarked(color, DeadWhite())| == old(|gray| + |Unmarked(color, DeadWhite())|)
    {
      hide Unmarked, Marking, May, Seen, Edges;
      var todo := open.Keys;
      while todo != {}
        invariant todo <= open.Keys
        invariant Marking(G(), rs, color, gray, DeadWhite(), cur)
        invariant Onward(old(color), color, DeadWhite())
        invariant forall i :: i in open && i !in todo ==> Seen(color, DeadWhite(), open[i])
        invariant |gray| + |Unmarked(color, DeadWhite())| == old(|gray| + |Unmarked(color, DeadWhite())|)
      {
        var i :| i in todo;
        assert open[i] in open.Values;
        ghost var was := color;
        MarkRef(open[i], rs, cur);
        SeenStays(was, color, DeadWhite(), set j | j in open && j !in todo :: open[j]);
        todo := todo - {i};
      }
    }

    /** What a reached thread keeps alive, unless its coroutine is dead. */
    method ScanThread(t: ThreadRecord, ghost rs: set<nat>, ghost cur: nat)
      requires Marking(G(), rs, color, gray, DeadWhite(), cur)
      requires AllMay(G(), rs, ThreadRefs(t))
      modifies `color, `gray
      ensures Marking(G(), rs, color, gray, DeadWhite(), cur)
      ensures AllSeen(color, DeadWhite(), ThreadRefs(t)) && Onward(old(color), color, DeadWhite())
      ensures |gray| + |Unmarked(color, DeadWhite())| == old(|gray| + |Unmarked(color, DeadWhite())|)
    {
      hide Unmarked, Marking, May, Seen, Edges, RefsIn;
      if t.dead {
        return;
      }
      MarkValues(t.stack, rs, cur);
      ghost var c1 := color;
      MarkOpen(t.open, rs, cur);
      SeenStays(c1, color, DeadWhite(), RefsIn(t.stack));
      ghost var c2 := color;
      MarkValues([t.fn], rs, cur);
      SeenStays(c2, color, DeadWhite(), RefsIn(t.stack) + t.open.Values);
      ghost var c3 := color;
      MarkValues(t.xfer, rs, cur);
      SeenStays(c3, color, DeadWhite(), RefsIn(t.stack) + t.open.Values + RefsIn([t.fn]));
    }

    /** Marks what an object holds; a weak table goes on the weak list. */
    method ScanObject(r: nat, ghost rs: set<nat>)
      requires r in heap && Marking(G(), rs, color, gray, DeadWhite(), r)
      requires AllMay(G(), rs, RefsHeld(threads, heap[r]))
      modifies `color, `gray, `weakList
      ensures Marking(G(), rs, color, gray, DeadWhite(), r)
      ensures AllSeen(color, DeadWhite(), RefsHeld(threads, heap[r])) && Onward(old(color), color, DeadWhite())
      ensures weakList == old(weakList) + if IsWeak(heap[r]) then [r] else []
      ensures |gray| + |Unmarked(color, DeadWhite())| == old(|gray| + |Unmarked(color, DeadWhite())|)
    {
      hide Unmarked, Marking, May, Seen, Edges, RefsIn, KeyRefs, ValRefs, ThreadRefs, GrayOk;
      var o := heap[r];
      if o.Table? {
        ScanTable(r, rs);
      } else if o.LuaClosure? {
        MarkRefs(o.upvals, rs, r);
      } else if o.HostClosure? {
        MarkValues(o.vals, rs, r);
      } else if o.Userdata? {
        MarkRef(o.meta, rs, r);
        ghost var c1 := color;
        MarkRef(o.env, rs, r);
        SeenStays(c1, color, DeadWhite(), {o.meta});
      } else if o.Thread? {
        if o.id in threads {
          ScanThread(threads[o.id], rs, r);
        }
      } else if o.ClosedUpval? {
        MarkValues([o.v], rs, r);
      } else if o.OpenUpval? {
        MarkValues([OpenValue(threads, o.owner, o.idx)], rs, r);
      }
    }

    /** A table: its strong sides and its metatable; a weak one is listed. */
    method ScanTable(r: nat, ghost rs: set<nat>)
      requires r in heap && heap[r].Table? && Marking(G(), rs, color, gray, DeadWhite(), r)
      requires AllMay(G(), rs, RefsHeld(threads, heap[r]))
      modifies `color, `gray, `weakList
      ensures Marking(G(), rs, color, gray, DeadWhite(), r)
      ensures AllSeen(color, DeadWhite(), RefsHeld(threads, heap[r])) && Onward(old(color), color, DeadWhite())
      ensures weakList == old(weakList) + if IsWeak(heap[r]) then [r] else []
      ensures |gray| + |Unmarked(color, DeadWhite())| == old(|gray| + |Unmarked(color, DeadWhite())|)
    {
      hide Unmarked, Marking, May, Seen, Edges, RefsIn, KeyRefs, ValRefs, ThreadRefs, GrayOk;
      var o := heap[r];
      if !o.weakVal {
        MarkValues(o.slots, rs, r);
      }
      ghost var c1 := color;
      MarkNodes(o.nodes, o.weakKey, o.weakVal, rs, r);
      SeenStays(c1, color, DeadWhite(), if o.weakVal then {} else RefsIn(o.slots));
      ghost var c2 := color;
      MarkRef(o.meta, rs, r);
      SeenStays(c2, color, DeadWhite(), RefsHeld(threads, o) - {o.meta});
      if o.weakKey || o.weakVal {
        weakList := weakList + [r];
      }
    }

    /** Empties the gray stack. */
    method MarkAll(ghost rs: set<nat>)
      requires NoDangling(heap, threads) && Marking(G(), rs, color, gray, DeadWhite(), 0)
      requires WeakListed(heap, color, weakList, 0)
      modifies `color, `gray, `weakList
      ensures gray == [] && Marking(G(), rs, color, gray, DeadWhite(), 0)
      ensures WeakListed(heap, color, weakList, 0)
      ensures forall x :: Marked(old(color), DeadWhite(), x) ==> Marked(color, DeadWhite(), x)
    {
      hide Unmarked, Marking, May, Seen, Edges, WeakListed, NoDangling, GrayOk, RefsHeld;
      NullFree(heap, threads);
      while |gray| > 0
        invariant Marking(G(), rs, color, gray, DeadWhite(), 0)
        invariant WeakListed(heap, color, weakList, 0)
        invariant forall x :: Marked(old(color), DeadWhite(), x) ==> Marked(color, DeadWhite(), x)
        decreases |gray| + |Unmarked(color, DeadWhite())|
      {
        PopStep(G(), rs, color, gray, DeadWhite());
        var n := |gray| - 1;
        var r := gray[n];
        ghost var c0, w0 := color, weakList;
        gray := gray[..n];
        color := color[r := Black];
        GraphHas(heap, threads);
        KidsMay(heap, threads, rs, r);
        PoppedWeak(heap, c0, weakList, r);
        ghost var c1 := color;
        ScanObject(r, rs);
        WeakListOnward(heap, c1, color, DeadWhite(), w0, r);
        SeenIsScanned(heap, threads, color, DeadWhite(), r);
        ScanDone(G(), rs, color, gray, DeadWhite(), r);
        ListedWeak(heap, color, w0, r);
      }
    }

    /** What an active thread roots. */
    method MarkActive(t: ThreadRecord, ghost rs: set<nat>)
      requires Marking(G(), rs, color, gray, DeadWhite(), 0)
      requires AllMay(G(), rs, RefsIn(t.stack)) && AllMay(G(), rs, t.open.Values) && May(G(), rs, t.ref)
      modifies `color, `gray
      ensures Marking(G(), rs, color, gray, DeadWhite(), 0)
      ensures AllSeen(color, DeadWhite(), ActiveRefs(t)) && Onward(old(color), color, DeadWhite())
    {
      hide Unmarked, Marking, May, Seen, Edges, RefsIn;
      MarkValues(t.stack, rs, 0);
      ghost var c1 := color;
      MarkOpen(t.open, rs, 0);
      SeenStays(c1, color, DeadWhite(), RefsIn(t.stack));
      ghost var c2 := color;
      MarkRef(t.ref, rs, 0);
      SeenStays(c2, color, DeadWhite(), RefsIn(t.stack) + t.open.Values);
    }

    ghost function Roots(): set<nat>
      reads `rootRefs, `rootValues, `active, `threads
    {
      RootSet(rootRefs, rootValues, active, threads)
    }

    /** Marks everything the roots hold. */
    method MarkRoots()
      requires NoDangling(heap, threads) && RootsOk(heap, rootRefs, rootValues, active, threads)
      requires color.Keys == heap.Keys && forall r :: r in color ==> color[r] == DeadWhite()
      modifies `color, `gray
      ensures Marking(G(), Roots(), color, gray, DeadWhite(), 0)
      ensures AllSeen(color, DeadWhite(), Roots()) && Onward(old(color), color, DeadWhite())
    {
      hide Unmarked, Marking, May, Seen, Edges, RefsIn, AllMay, AllSeen, RootSet, ActiveRefs, Onward;
      ghost var rs := Roots();
      gray := [];
      NullFree(heap, threads);
      GraphHas(heap, threads);
      MarkStart(G(), rs, color, DeadWhite());
      RootsMay(heap, threads, rootRefs, rootValues, active);
      MarkRefs(rootRefs, rs, 0);
      OnwardFrom(old(color), old(color), color, DeadWhite());
      ghost var done := set r | r in rootRefs;
      ghost var c1 := color;
      MarkValues(rootValues, rs, 0);
      OnwardFrom(old(color), c1, color, DeadWhite());
      SeenBoth(c1, color, DeadWhite(), done, RefsIn(rootValues));
      done := done + RefsIn(rootValues);
      var i := 0;
      while i < |active|
        invariant 0 <= i <= |active|
        invariant Marking(G(), rs, color, gray, DeadWhite(), 0)
        invariant AllSeen(color, DeadWhite(), done) && Onward(old(color), color, DeadWhite())
        invariant (set r | r in rootRefs) + RefsIn(rootValues) <= done
        invariant forall j :: 0 <= j < i ==> ActiveRefs(threads[active[j]]) <= done
      {
        ActiveMay(heap, threads, rootRefs, rootValues, active, i);
        ghost var c2 := color;
        MarkActive(threads[active[i]], rs);
        OnwardFrom(old(color), c2, color, DeadWhite());
        SeenBoth(c2, color, DeadWhite(), done, ActiveRefs(threads[active[i]]));
        done := done + ActiveRefs(threads[active[i]]);
        i := i + 1;
      }
      RootsCovered(rootRefs, rootValues, active, threads, done);
      AllSeenLess(color, DeadWhite(), done, rs);
    }

    // ---- threads that went away ----

    /** Closes a thread's open upvalues from a stack level on. */
    method CloseUpvals(id: nat, level: nat)
      requires OwnsUpvals(heap, threads, id)
      modifies `heap, `threads
      ensures heap == ClosedFrom(old(heap), old(threads), {id}, level)
      ensures threads == old(threads)[id := Trimmed(old(threads)[id], level)]
    {
      assert id in threads;
      hide OwnsUpvals, ClosedAmong, ClosedFrom;
      var t := threads[id];
      var todo := set i | i in t.open && i >= level;
      ghost var all := todo;
      ClosedBounds(heap, threads, id, level, all);
      while todo != {}
        invariant threads == old(threads) && todo <= all
        invariant heap == ClosedAmong(old(heap), old(threads), id, all - todo)
      {
        var i :| i in todo;
        ClosesOne(old(heap), threads, id, all - todo, i);
        assert all - todo + {i} == all - (todo - {i});
        heap := heap[t.open[i] := ClosedUpval(t.stack[i])];
        todo := todo - {i};
      }
      assert all - todo == all;
      threads := threads[id := Trimmed(t, level)];
    }

    /** Closes and drops the threads whose objects went unreached. */
    method ReleaseThreads(ghost live: set<nat>)
      requires ThreadsOk(heap, threads) && color.Keys == heap.Keys
      requires forall r :: r in heap ==> (color[r] == DeadWhite() <==> r !in live)
      modifies `heap, `threads
      ensures heap == ClosedFrom(old(heap), old(threads), DeadThreads(old(threads), live), 0)
      ensures threads == SurvivingThreads(old(threads), live)
    {
      hide ThreadsOk, ClosedFrom, OwnsUpvals;
      ghost var h0, ts0 := heap, threads;
      ClosedNone(h0, ts0);
      ghost var gone: set<nat> := {};
      var todo := threads.Keys - {MAIN};
      while todo != {}
        invariant todo <= ts0.Keys - {MAIN}
        invariant gone == DeadThreads(ts0, live) - todo
        invariant heap == ClosedFrom(h0, ts0, gone, 0) && threads == ts0 - gone
      {
        var id :| id in todo;
        StillOwns(h0, ts0, gone, id);
        if color[threads[id].ref] == DeadWhite() {
          CloseUpvals(id, 0);
          threads := threads - {id};
          ClosedMore(h0, ts0, gone, id);
          gone := gone + {id};
        }
        todo := todo - {id};
      }
      assert gone == DeadThreads(ts0, live);
    }

    // ---- weak tables ----

    predicate RefIsDead(v: Value)
      requires v.Ref? ==> v.ref in color
      reads this
    {
      v.Ref? && color[v.ref] == DeadWhite()
    }

    /** A weak table's array values, the dead ones niled. */
    method ClearSlots(slots: seq<Value>, ghost live: set<nat>) returns (r: seq<Value>)
      requires forall x :: x in color ==> (color[x] == DeadWhite() <==> x !in live)
      requires RefsIn(slots) <= color.Keys
      ensures |r| == |slots| && forall i :: 0 <= i < |slots| ==> r[i] == if Died(slots[i], live) then Nil else slots[i]
    {
      r := slots;
      var i := 0;
      while i < |slots|
        invariant 0 <= i <= |slots| == |r|
        invariant forall j :: 0 <= j < i ==> r[j] == if Died(slots[j], live) then Nil else slots[j]
        invariant forall j :: i <= j < |slots| ==> r[j] == slots[j]
      {
        assert slots[i] in slots;
        if RefIsDead(r[i]) {
          r := r[i := Nil];
        }
        i := i + 1;
      }
    }

    /** A weak table's nodes, the dead ones emptied but still linked. */
    method ClearNodes(nodes: seq<Slot>, wk: bool, wv: bool, ghost live: set<nat>) returns (r: seq<Slot>, cleared: bool)
      requires forall x :: x in color ==> (color[x] == DeadWhite() <==> x !in live)
      requires wk ==> KeyRefs(nodes) <= color.Keys
      requires wv ==> ValRefs(nodes) <= color.Keys
      ensures |r| == |nodes| && forall i :: 0 <= i < |nodes| ==> r[i] == ClearSlot(nodes[i], wk, wv, live)
      ensures cleared <==> exists i :: 0 <= i < |nodes| && SlotDied(nodes[i], wk, wv, live)
    {
      r, cleared := nodes, false;
      var i := 0;
      while i < |nodes|
        invariant 0 <= i <= |nodes| == |r|
        invariant forall j :: 0 <= j < i ==> r[j] == ClearSlot(nodes[j], wk, wv, live)
        invariant forall j :: i <= j < |nodes| ==> r[j] == nodes[j]
        invariant cleared <==> exists j :: 0 <= j < i && SlotDied(nodes[j], wk, wv, live)
      {
        assert nodes[i] in nodes;
        if (wk && RefIsDead(r[i].key)) || (wv && RefIsDead(r[i].val)) {
          assert SlotDied(nodes[i], wk, wv, live);
          r := r[i := Slot(Nil, Nil, r[i].next)];
          cleared := true;
        }
        i := i + 1;
      }
    }

    /** Removes the entries of reached weak tables whose weak side went unreached. */
    method ClearWeakTables(ghost live: set<nat>)
      requires color.Keys == heap.Keys && forall x :: x in color ==> (color[x] == DeadWhite() <==> x !in live)
      requires forall t :: t in weakList <==> t in heap && t in live && IsWeak(heap[t])
      requires forall i, j :: 0 <= i < j < |weakList| ==> weakList[i] != weakList[j]
      requires forall t :: t in heap ==> WeakRefs(heap[t]) <= heap.Keys
      modifies `heap, `weakList
      ensures weakList == []
      ensures heap == map r | r in old(heap) :: if r in live && IsWeak(old(heap)[r])
        then ClearTable(old(heap)[r], live) else old(heap)[r]
    {
      hide WeakRefs, ClearTable;
      ghost var h0 := heap;
      var i := 0;
      while i < |weakList|
        invariant 0 <= i <= |weakList|
        invariant weakList == old(weakList) && heap.Keys == h0.Keys
        invariant forall r :: r in h0 ==> heap[r] == if r in weakList[..i] then ClearTable(h0[r], live) else h0[r]
      {
        var t := weakList[i];
        assert weakList[i] in weakList && t !in weakList[..i] && weakList[..i + 1] == weakList[..i] + [t];
        var o := ClearOne(heap[t], live);
        heap := heap[t := o];
        i := i + 1;
      }
      assert weakList[..|weakList|] == weakList;
      weakList := [];
    }

    method ClearOne(o: Obj, ghost live: set<nat>) returns (r: Obj)
      requires IsWeak(o) && WeakRefs(o) <= color.Keys
      requires forall x :: x in color ==> (color[x] == DeadWhite() <==> x !in live)
      ensures r == ClearTable(o, live)
    {
      var slots := o.slots;
      if o.weakVal {
        slots := ClearSlots(o.slots, live);
      }
      var nodes, cleared := ClearNodes(o.nodes, o.weakKey, o.weakVal, live);
      r := Table(slots, nodes, o.meta, o.weakKey, o.weakVal, if cleared then o.gen + 1 else o.gen);
    }

    // ---- sweeping ----

    /** Takes a string out of its bucket. */
    method RemoveFromStringTable(r: nat)
      requires r in heap && heap[r].Str? && InternOk(buckets, strCount, TextsOf(heap), hash)
      modifies `buckets, `strCount
      ensures InternOk(buckets, strCount, TextsOf(heap) - {r}, hash)
    {
      var k := BucketOf(hash, heap[r].bytes, |buckets|);
      assert BucketOk(buckets[k], k, |buckets|, TextsOf(heap), hash);
      assert TextsOf(heap)[r] == heap[r].bytes;
      var rest := RemoveFrom(buckets[k], r);
      RemoveOk(buckets, strCount, TextsOf(heap), hash, r, rest);
      assert r in TextsOf(heap).Keys && |TextsOf(heap).Keys| > 0;
      buckets := buckets[k := rest];
      strCount := strCount - 1;
    }

    /** A string that dies leaves its bucket. */
    method ForgetString(r: nat)
      requires r in heap && InternOk(buckets, strCount, TextsOf(heap), hash)
      modifies `buckets, `strCount
      ensures InternOk(buckets, strCount, TextsOf(heap - {r}), hash)
    {
      TextsLess(heap, r);
      hide InternOk, TextsOf;
      if heap[r].Str? {
        RemoveFromStringTable(r);
      }
    }

    /** Gives an unreached object's memory back. */
    method FreeObject(r: nat)
      requires r in heap && InternOk(buckets, strCount, TextsOf(heap), hash)
      modifies `heap, `color, `gcnext, `buckets, `strCount
      ensures heap == old(heap) - {r} && color == old(color) - {r} && gcnext == old(gcnext) - {r}
      ensures InternOk(buckets, strCount, TextsOf(heap), hash)
    {
      hide InternOk, TextsOf;
      ForgetString(r);
      heap := heap - {r};
      color := color - {r};
      gcnext := gcnext - {r};
    }

    method UnlinkSweep(prev: nat, next: nat)
      modifies `sweepHead, `gcnext
      ensures sweepHead == if prev == 0 then next else old(sweepHead)
      ensures gcnext == if prev == 0 then old(gcnext) else old(gcnext)[prev := next]
    {
      if prev == 0 {
        sweepHead := next;
        return;
      }
      gcnext := gcnext[prev := next];
    }

    ghost function Bytes(h: Heap, s: seq<nat>): nat {
      if s == [] then 0 else Bytes(h, s[..|s| - 1]) + if s[|s| - 1] in h then sizeOf(h[s[|s| - 1]]) else 0
    }

    function SweepView(): SweepState
      reads this
    {
      SweepState(sweepHead, gcnext, heap, color)
    }

    /** Frees the unreached objects and turns the others the colour of the next cycle's
        candidates. */
    method Sweep(ghost live: set<nat>) returns (liveBytes: nat)
      requires OnChain()
      requires live <= heap.Keys && forall r :: r in heap ==> (color[r] == DeadWhite() <==> r !in live)
      requires InternOk(buckets, strCount, TextsOf(heap), hash)
      modifies `heap, `color, `gcnext, `sweepHead, `buckets, `strCount, `chain
      ensures heap == map r | r in old(heap) && r in live :: old(heap)[r]
      ensures OnChain() && forall r :: r in heap ==> color[r] == White(currentWhite)
      ensures InternOk(buckets, strCount, TextsOf(heap), hash)
      ensures liveBytes == Bytes(heap, chain)
    {
      hide InternOk, ChainOk, TextsOf, Sweeping, Bytes;
      BytesNone(heap);
      liveBytes := 0;
      var prev, ref := 0, sweepHead;
      ghost var kept: seq<nat>, rest := [], chain;
      ghost var h0, c, d := heap, White(currentWhite), DeadWhite();
      SweepStart(SweepView(), chain, live, c, d);
      while ref != 0
        invariant Sweeping(SweepView(), kept, rest, h0, live, c, d)
        invariant ref == (if rest == [] then 0 else rest[0]) && prev == LastOf(kept)
        invariant InternOk(buckets, strCount, TextsOf(heap), hash)
        invariant liveBytes == Bytes(h0, kept)
        decreases |rest|
      {
        SweepHere(SweepView(), kept, rest, h0, live, c, d);
        var next := gcnext[ref];
        if color[ref] == DeadWhite() {
          UnreachedHere(SweepView(), kept, rest, h0, live, c, d);
          SweepFree(SweepView(), kept, rest, h0, live, c, d);
          ghost var s1 := Freed(SweepView(), prev, ref);
          UnlinkSweep(prev, next);
          FreeObject(ref);
          assert SweepView() == s1;
        } else {
          UnreachedHere(SweepView(), kept, rest, h0, live, c, d);
          SweepKeep(SweepView(), kept, rest, h0, live, c, d);
          color := color[ref := White(currentWhite)];
          liveBytes := liveBytes + sizeOf(heap[ref]);
          BytesStep(h0, kept, ref);
          kept := kept + [ref];
          prev := ref;
        }
        rest := rest[1..];
        ref := next;
      }
      if rest != [] {
        SweepHere(SweepView(), kept, rest, h0, live, c, d);
      }
      SweepDone(SweepView(), kept, h0, live, c, d);
      chain := kept;
      BytesSame(h0, heap, kept);
    }

    lemma BytesNone(h: Heap)
      ensures Bytes(h, []) == 0
    {
    }

    lemma BytesStep(h: Heap, s: seq<nat>, r: nat)
      requires r in h
      ensures Bytes(h, s + [r]) == Bytes(h, s) + sizeOf(h[r])
    {
      assert (s + [r])[..|s|] == s;
    }

    lemma {:induction false} BytesSame(h: Heap, h': Heap, s: seq<nat>)
      requires forall r :: r in s ==> r in h && r in h' && h[r] == h'[r]
      ensures Bytes(h, s) == Bytes(h', s)
      decreases |s|
    {
      if s != [] { BytesSame(h, h', s[..|s| - 1]); }
    }

    // ---- a collection ----

    lemma IdlePending()
      requires Idle()
      ensures pendingInstalled ==> pendingFlag == pendingLast
    {
    }

    /** What some root reaches. */
    ghost function LiveSet(): set<nat>
      reads `heap, `threads, `rootRefs, `rootValues, `active
    {
      Live(G(), Roots())
    }

    /** Colours the heap: the live objects black, the others left as they were. */
    method MarkPhase()
      requires InOrder() && Idle()
      modifies `color, `gray, `weakList
      ensures gray == [] && OnChain() && LiveSet() <= heap.Keys
      ensures forall r :: r in heap ==> (color[r] == DeadWhite() <==> r !in LiveSet())
      ensures forall t :: t in weakList <==> t in heap && t in LiveSet() && IsWeak(heap[t])
      ensures forall i, j :: 0 <= i < j < |weakList| ==> weakList[i] != weakList[j]
    {
      hide ThreadsOk, NoDangling, RootsOk, InternOk, ChainOk, Marking, WeakListed, Unmarked, Edges, RootSet, AllSeen;
      hide Reachable, Live, TextsOf;
      ghost var c0 := color;
      MarkRoots();
      NoneListed(heap, c0, color, DeadWhite());
      ghost var c1 := color;
      MarkAll(Roots());
      RootsNotNull(rootRefs, rootValues, active, threads);
      RootsMarked(Roots(), c1, color, DeadWhite());
      LiveColors(heap, threads, Roots(), color, DeadWhite(), weakList);
    }

    /** Everything between marking and pacing. */
    method Reclaim(ghost live: set<nat>) returns (bytes: nat)
      requires ThreadsOk(heap, threads) && NoDangling(heap, threads) && InternOk(buckets, strCount, TextsOf(heap), hash)
      requires OnChain() && live <= heap.Keys
      requires forall r :: r in heap ==> (color[r] == DeadWhite() <==> r !in live)
      requires forall t :: t in weakList <==> t in heap && t in live && IsWeak(heap[t])
      requires forall i, j :: 0 <= i < j < |weakList| ==> weakList[i] != weakList[j]
      modifies `heap, `threads, `weakList, `color, `gcnext, `sweepHead, `buckets, `strCount, `chain
      ensures heap == SurvivingHeap(old(heap), old(threads), live) && threads == SurvivingThreads(old(threads), live)
      ensures OnChain() && forall r :: r in heap ==> color[r] == White(currentWhite)
      ensures InternOk(buckets, strCount, TextsOf(heap), hash)
      ensures weakList == [] && bytes == Bytes(heap, chain)
    {
      hide ThreadsOk, NoDangling, InternOk, ChainOk, TextsOf, ClosedFrom, Survivor, Bytes, ClearTable, IsWeak;
      hide WeakRefs, SurvivingHeap, DeadThreads;
      ghost var h0, ts0 := heap, threads;
      ReleaseThreads(live);
      ghost var h1 := heap;
      ReleasedWeak(h0, ts0, live, h1);
      ClearWeakTables(live);
      ghost var h2 := heap;
      TextsKept(h0, ts0, live, h1, h2);
      bytes := Sweep(live);
      CollectComposes(h0, ts0, live, h1, h2, heap);
    }

    /** Sets the allocation count that starts the next collection, and makes the colour of the
        survivors the candidates' colour. */
    method EndCycle(live: nat, arenaCap: nat)
      requires OnChain() && (forall r :: r in heap ==> color[r] == White(currentWhite)) && gray == [] && weakList == []
      requires pendingInstalled ==> pendingFlag == pendingLast
      modifies `liveBytesAfterSweep, `threshold, `bytesAllocSince, `currentWhite, `pendingLast, `pendingFlag
      ensures Idle() && currentWhite == !old(currentWhite)
      ensures liveBytesAfterSweep == live && bytesAllocSince == 0
      ensures var paced, least := live * pauseRatio / 100, arenaCap / 16;
        threshold == if paced < least then least else paced
    {
      liveBytesAfterSweep := live;
      threshold := liveBytesAfterSweep * pauseRatio / 100;
      if threshold < arenaCap / 16 {
        threshold := arenaCap / 16;
      }
      bytesAllocSince := 0;
      currentWhite := !currentWhite;
      UpdatePending();
    }

    /** One full collection: exactly the objects no root reaches are freed; the others keep what
        they held, but for entries of weak tables whose weak side was freed and for upvalues of
        freed threads, which keep their value. `threadBytes` is what the runtime keeps for the
        remaining threads, `arenaCap` the arena's capacity afterwards. */
    method Collect(threadBytes: nat, arenaCap: nat)
      requires Valid() && !collecting
      modifies this
      ensures Valid() && !collecting
      ensures heap == SurvivingHeap(old(heap), old(threads), old(LiveSet()))
      ensures threads == SurvivingThreads(old(threads), old(LiveSet()))
      ensures CollectedAs(old(heap), old(threads), rootRefs, rootValues, active, heap, threads)
      ensures AllLead(heap, threads)
      ensures rootRefs == old(rootRefs) && rootValues == old(rootValues) && active == old(active)
      ensures stopped == old(stopped) && stressMode == old(stressMode) && pendingInstalled == old(pendingInstalled)
      ensures currentWhite == !old(currentWhite) && bytesAllocSince == 0
      ensures liveBytesAfterSweep == Bytes(heap, chain) + threadBytes
      ensures var paced, least := liveBytesAfterSweep * pauseRatio / 100, arenaCap / 16;
        threshold == if paced < least then least else paced
    {
      hide InOrder, OnChain, SurvivingHeap, SurvivingThreads, Bytes, IsWeak, Idle, Live, Edges, RootSet;
      hide CollectedAs, AllLead;
      IdlePending();
      Survivors();
      collecting := true;
      var bytes := CollectObjects();
      EndCycle(bytes + threadBytes, arenaCap);
      collecting := false;
      FieldsLeft();
    }

    lemma Survivors()
      requires InOrder()
      ensures CollectedAs(heap, threads, rootRefs, rootValues, active,
                          SurvivingHeap(heap, threads, LiveSet()), SurvivingThreads(threads, LiveSet()))
    {
      hide CollectedAs, SurvivingHeap, SurvivingThreads, RootsOk, InternOk;
      NullFree(heap, threads);
      SurvivorsAre(heap, threads, rootRefs, rootValues, active);
    }

    lemma FieldsLeft()
      requires InOrder()
      ensures AllLead(heap, threads)
    {
      hide AllLead, RootsOk, InternOk;
      HeapLeads(heap, threads);
    }

    /** Mark, release threads, clear weak tables, sweep. */
    method CollectObjects() returns (bytes: nat)
      requires InOrder() && Idle()
      modifies `heap, `threads, `color, `gray, `weakList, `gcnext, `sweepHead, `buckets, `strCount, `chain
      ensures InOrder() && OnChain() && forall r :: r in heap ==> color[r] == White(currentWhite)
      ensures gray == [] && weakList == []
      ensures heap == SurvivingHeap(old(heap), old(threads), old(LiveSet()))
      ensures threads == SurvivingThreads(old(threads), old(LiveSet()))
      ensures bytes == Bytes(heap, chain)
    {
      hide ThreadsOk, NoDangling, RootsOk, InternOk, ChainOk, Edges, RootSet, Live, TextsOf, Bytes, SurvivingHeap;
      hide SurvivingThreads;
      hide IsWeak, WeakRefs, OnChain, PendingOk, PendingNow;
      ghost var h0, ts0, live := heap, threads, LiveSet();
      MarkPhase();
      bytes := Reclaim(live);
      CollectedInOrder(h0, ts0, rootRefs, rootValues, active);
    }

    /** The check at a safepoint. */
    method MaybeCollect(threadBytes: nat, arenaCap: nat)
      requires Valid() && !collecting
      modifies this
      ensures Valid() && !collecting
      ensures rootRefs == old(rootRefs) && rootValues == old(rootValues) && active == old(active)
      ensures stopped == old(stopped) && stressMode == old(stressMode) && pendingInstalled == old(pendingInstalled)
      ensures stopped || (!stressMode && old(bytesAllocSince < threshold)) ==>
        heap == old(heap) && threads == old(threads)
        && bytesAllocSince == old(bytesAllocSince) && threshold == old(threshold)
      ensures !stopped && (stressMode || old(bytesAllocSince >= threshold)) ==>
        && heap == SurvivingHeap(old(heap), old(threads), old(LiveSet()))
        && threads == SurvivingThreads(old(threads), old(LiveSet()))
        && CollectedAs(old(heap), old(threads), rootRefs, rootValues, active, heap, threads)
        && bytesAllocSince == 0 && threshold >= arenaCap / 16
    {
      hide InOrder, Idle, SurvivingHeap, SurvivingThreads, LiveSet, CollectedAs, AllLead;
      if stopped {
        return;
      }
      if stressMode || bytesAllocSince >= threshold {
        Collect(threadBytes, arenaCap);
      }
    }

    // ---- what the program does between collections ----

    constructor (hash: Bytes -> nat, sizeOf: Obj -> nat, pauseRatio: nat, arenaCap: nat)
      ensures Valid() && !collecting && heap == map[] && this.hash == hash && threshold == arenaCap / 4
    {
      hide ThreadsOk, NoDangling, RootsOk, InternOk, ChainOk, RootSet, EmptyBuckets;
      this.hash, this.sizeOf, this.pauseRatio := hash, sizeOf, pauseRatio;
      heap, color, gcnext := map[], map[], map[];
      threads := map[MAIN := ThreadRecord(0, [], map[], Nil, [], false)];
      sweepHead, currentWhite, gray, weakList := 0, false, [], [];
      rootRefs, rootValues, active := [], [], [MAIN];
      buckets, strCount := EmptyBuckets(), 0;
      threshold, bytesAllocSince, liveBytesAfterSweep := arenaCap / 4, 0, 0;
      stopped, stressMode, collecting := false, false, false;
      pendingInstalled, pendingLast, pendingFlag := false, false, false;
      chain := [];
      new;
      assert TextsOf(map[]) == map[];
      EmptyOk(hash);
    }

    /** Puts a new object at the head of the sweep chain, in the candidates' colour. */
    method LinkSweep(at: nat)
      requires at != 0 && at !in chain && ChainOk(sweepHead, gcnext, chain)
      modifies `color, `gcnext, `sweepHead, `chain
      ensures ChainOk(sweepHead, gcnext, chain) && chain == [at] + old(chain)
      ensures color == old(color)[at := DeadWhite()] && gcnext.Keys == old(gcnext).Keys + {at}
    {
      LinkOk(sweepHead, gcnext, chain, at);
      color := color[at := DeadWhite()];
      gcnext := gcnext[at := sweepHead];
      sweepHead := at;
      chain := [at] + chain;
    }

    /** Counts an allocation; never collects. */
    method AllocCharge(n: nat)
      requires pendingInstalled ==> pendingFlag == pendingLast
      modifies `bytesAllocSince, `pendingLast, `pendingFlag
      ensures bytesAllocSince == old(bytesAllocSince) + n && PendingOk()
    {
      bytesAllocSince := bytesAllocSince + n;
      UpdatePending();
    }

    /** Writes a new object, links it and charges for it. */
    method Admit(at: nat, o: Obj)
      requires Idle() && at != 0 && at !in heap
      modifies `heap, `color, `gcnext, `sweepHead, `chain, `bytesAllocSince, `pendingLast, `pendingFlag
      ensures Idle() && heap == old(heap)[at := o] && bytesAllocSince == old(bytesAllocSince) + sizeOf(o)
    {
      hide ChainOk, PendingNow;
      heap := heap[at := o];
      LinkSweep(at);
      assert OnChain() by { hide PendingOk; }
      AllocCharge(sizeOf(o));
    }

    /** A new table, closure, userdata or closed upvalue at an address the arena gave out. */
    method NewObject(at: nat, o: Obj)
      requires Valid() && !collecting && at != 0 && at !in heap && !o.Str? && PlainOk(heap[at := o], threads, o)
      modifies `heap, `threads, `buckets, `strCount, `color, `gcnext, `sweepHead, `chain, `bytesAllocSince
      modifies `pendingLast, `pendingFlag
      ensures Valid() && !collecting && heap == old(heap)[at := o] && threads == old(threads) && Roots() == old(Roots())
      ensures bytesAllocSince == old(bytesAllocSince) + sizeOf(o)
    {
      hide ThreadsOk, NoDangling, InternOk, PlainOk, RootsOk, RootSet, Idle;
      RootsMore(heap, heap[at := o], rootRefs, rootValues, active, threads);
      PutObject(heap, threads, at, o);
      assert TextsOf(heap[at := o]) == TextsOf(heap);
      Admit(at, o);
    }

    /** Overwrites fields of an object that is no string, thread or open upvalue. */
    method Write(r: nat, o: Obj)
      requires Valid() && !collecting && r in heap && !heap[r].Str? && !heap[r].Thread? && !heap[r].OpenUpval?
      requires !o.Str? && PlainOk(heap, threads, o)
      modifies `heap
      ensures Valid() && heap == old(heap)[r := o]
    {
      hide ThreadsOk, NoDangling, ChainOk, InternOk, RootSet;
      NullFree(heap, threads);
      assert heap[r := o].Keys == heap.Keys;
      PutObject(heap, threads, r, o);
      assert TextsOf(heap[r := o]) == TextsOf(heap);
      heap := heap[r := o];
    }

    /** The string object with bytes b: the one there is, or a new one at `at`. */
    method InternString(b: Bytes, at: nat) returns (r: nat)
      requires Valid() && !collecting && at != 0 && at !in heap
      modifies `heap, `threads, `buckets, `strCount, `color, `gcnext, `sweepHead, `chain, `bytesAllocSince
      modifies `pendingLast, `pendingFlag
      ensures Valid() && !collecting && threads == old(threads) && Roots() == old(Roots())
      ensures r in heap && heap[r] == Str(b)
      ensures forall s :: s in heap && heap[s] == Str(b) ==> s == r
      ensures heap == old(heap) || (r == at && heap == old(heap)[at := Str(b)])
      ensures bytesAllocSince == old(bytesAllocSince) + if at in heap then sizeOf(Str(b)) else 0
      ensures (exists s :: s in old(heap) && old(heap)[s] == Str(b)) ==> heap == old(heap)
    {
      hide ThreadsOk, NoDangling, ChainOk, RootSet, RootsOk, BucketsOk, Unique;
      NullFree(heap, threads);
      r := Find(buckets, TextsOf(heap), hash, b);
      if r != 0 {
        OnlyString(heap, buckets, strCount, hash, r, b);
        return;
      }
      NoString(heap, b);
      AddString(b, at);
      r := at;
    }

    /** A new string object, listed in its bucket; the table doubles when it holds more strings
        than buckets. */
    method AddString(b: Bytes, at: nat)
      requires Valid() && !collecting && at != 0 && at !in heap
      requires forall s :: s in TextsOf(heap) ==> TextsOf(heap)[s] != b
      modifies `heap, `threads, `buckets, `strCount, `color, `gcnext, `sweepHead, `chain, `bytesAllocSince
      modifies `pendingLast, `pendingFlag
      ensures Valid() && !collecting && threads == old(threads) && Roots() == old(Roots())
      ensures heap == old(heap)[at := Str(b)] && bytesAllocSince == old(bytesAllocSince) + sizeOf(Str(b))
    {
      hide ThreadsOk, NoDangling, RootsOk, RootSet, PlainOk, InternOk, Idle;
      RootsMore(heap, heap[at := Str(b)], rootRefs, rootValues, active, threads);
      PlainString(heap[at := Str(b)], threads, b);
      PutObject(heap, threads, at, Str(b));
      assert TextsOf(heap[at := Str(b)]) == TextsOf(heap)[at := b];
      ListString(b, at);
      Admit(at, Str(b));
    }

    method ListString(b: Bytes, at: nat)
      requires InternOk(buckets, strCount, TextsOf(heap), hash) && at !in heap
      requires forall s :: s in TextsOf(heap) ==> TextsOf(heap)[s] != b
      modifies `buckets, `strCount
      ensures InternOk(buckets, strCount, TextsOf(heap)[at := b], hash)
      ensures strCount == old(strCount) + 1
      ensures |buckets| == (if strCount > old(|buckets|) then 2 else 1) * old(|buckets|)
    {
      hide BucketsOk, Unique;
      AddOk(buckets, strCount, TextsOf(heap), hash, at, b);
      BucketCount(buckets, TextsOf(heap), hash);
      var k := BucketOf(hash, b, |buckets|);
      buckets := buckets[k := buckets[k] + [at]];
      strCount := strCount + 1;
      if strCount > |buckets| {
        buckets := Doubled(buckets, TextsOf(heap)[at := b], hash);
      }
    }

    /** A new coroutine: a thread object at `at` and a record under a free handle. */
    method NewThread(at: nat, id: nat, fn: Value)
      requires Valid() && !collecting && at != 0 && at !in heap && id !in threads && RefsIn([fn]) <= heap.Keys
      modifies `heap, `threads, `buckets, `strCount, `color, `gcnext, `sweepHead, `chain, `bytesAllocSince
      modifies `pendingLast, `pendingFlag
      ensures Valid() && !collecting && heap == old(heap)[at := Thread(id)]
      ensures bytesAllocSince == old(bytesAllocSince) + sizeOf(Thread(id))
      ensures threads == old(threads)[id := ThreadRecord(at, [], map[], fn, [], false)] && Roots() == old(Roots())
    {
      hide ThreadsOk, NoDangling, InternOk, RootsOk, RootSet, Idle;
      PutThread(heap, threads, at, id, fn);
      assert TextsOf(heap[at := Thread(id)]) == TextsOf(heap);
      NewThreadRoots(heap, rootRefs, rootValues, active, threads, at, id, fn);
      threads := threads[id := ThreadRecord(at, [], map[], fn, [], false)];
      Admit(at, Thread(id));
    }

    /** The open upvalue of a stack slot, created at `at` when there is none. */
    method FindOrCreateUpval(id: nat, i: nat, at: nat) returns (r: nat)
      requires Valid() && !collecting && at != 0 && at !in heap
      requires id in threads && !threads[id].dead && i < |threads[id].stack|
      modifies `heap, `threads, `buckets, `strCount, `color, `gcnext, `sweepHead, `chain, `bytesAllocSince
      modifies `pendingLast, `pendingFlag
      ensures Valid() && !collecting
      ensures i in old(threads)[id].open ==>
        r == old(threads)[id].open[i] && heap == old(heap) && threads == old(threads)
      ensures bytesAllocSince ==
        old(bytesAllocSince) + if i in old(threads)[id].open then 0 else sizeOf(OpenUpval(id, i))
      ensures i !in old(threads)[id].open ==>
        r == at && heap == old(heap)[at := OpenUpval(id, i)] && threads == WithOpen(old(threads), id, i, at)
    {
      hide NoDangling, ThreadsOk, InternOk, RootsOk, Idle;
      if i in threads[id].open {
        return threads[id].open[i];
      }
      PutUpval(heap, threads, at, id, i);
      assert TextsOf(heap[at := OpenUpval(id, i)]) == TextsOf(heap);
      NewUpvalRoots(heap, rootRefs, rootValues, active, threads, id, i, at, OpenUpval(id, i));
      threads := WithOpen(threads, id, i, at);
      Admit(at, OpenUpval(id, i));
      r := at;
    }

    /** A thread runs: its stack and transfer values become others. */
    method SetStack(id: nat, stack: seq<Value>, xfer: seq<Value>)
      requires Valid() && id in threads && RefsIn(stack) + RefsIn(xfer) <= heap.Keys && (id == MAIN ==> xfer == [])
      requires forall i :: i in threads[id].open ==> i < |stack|
      modifies `threads
      ensures Valid() && threads == old(threads)[id := old(threads)[id].(stack := stack, xfer := xfer)]
    {
      hide ThreadsOk, NoDangling, ChainOk, InternOk, RootsOk, RootSet;
      PutStack(heap, threads, id, stack, xfer);
      OpenValuesIn(heap, threads, id);
      ActiveAlive(heap, rootRefs, rootValues, active, threads);
      RootsChanged(heap, heap, rootRefs, rootValues, active, threads, id, threads[id].(stack := stack, xfer := xfer));
      threads := threads[id := threads[id].(stack := stack, xfer := xfer)];
    }

    /** A thread leaves a scope: its open upvalues from a stack level on are closed. */
    method LeaveScope(id: nat, level: nat)
      requires Valid() && id in threads
      modifies `heap, `threads
      ensures Valid() && heap == ClosedFrom(old(heap), old(threads), {id}, level)
      ensures threads == old(threads)[id := Trimmed(old(threads)[id], level)]
      ensures ShutsAs(old(threads)[id], level, threads[id]) && heap.Keys == old(heap).Keys
      ensures forall u :: u in old(heap) ==> u in heap && ClosesAs(old(threads), id, level, old(heap)[u], heap[u])
      ensures forall u :: u in heap && !heap[u].Str? ==>
        UpvalValue(threads, heap[u]) == UpvalValue(old(threads), old(heap)[u])
    {
      hide ThreadsOk, NoDangling, ChainOk, InternOk, RootsOk, RootSet, ClosedFrom, UpvalValue, OwnsUpvals, TextsOf;
      hide ClosesAs;
      ghost var h0, ts0 := heap, threads;
      CloseOk(heap, threads, id, level);
      LeftValues(heap, threads, id, level);
      AllClose(heap, threads, id, level);
      CloseUpvals(id, level);
      LeftRoots(h0, heap, rootRefs, rootValues, active, ts0, id, level);
    }

    /** A coroutine dies, by its end or by an error: its upvalues are closed, the values it was passing
        are dropped, and the collector finds nothing in it from then on. */
    method Die(id: nat)
      requires Valid() && id in threads && id != MAIN && id !in active
      modifies `heap, `threads
      ensures Valid() && heap == ClosedFrom(old(heap), old(threads), {id}, 0)
      ensures threads == old(threads)[id := Deceased(Trimmed(old(threads)[id], 0))]
      ensures threads[id] == old(threads)[id].(open := map[], xfer := [], dead := true)
      ensures heap.Keys == old(heap).Keys
      ensures forall u :: u in old(heap) ==> u in heap && ClosesAs(old(threads), id, 0, old(heap)[u], heap[u])
      ensures forall u :: u in heap && !heap[u].Str? ==>
        UpvalValue(threads, heap[u]) == UpvalValue(old(threads), old(heap)[u])
    {
      hide ThreadsOk, NoDangling, ChainOk, InternOk, RootsOk, RootSet, ClosedFrom, UpvalValue, ClosesAs;
      LeaveScope(id, 0);
      PutDead(heap, threads, id);
      DeadRoots(heap, rootRefs, rootValues, active, threads, id);
      DeadValues(heap, threads, id);
      threads := threads[id := Deceased(threads[id])];
    }

    /** collectgarbage("stop") and ("restart"). */
    method SetStopped(on: bool)
      requires Valid()
      modifies `stopped, `pendingLast, `pendingFlag
      ensures Valid() && stopped == on
      ensures pendingInstalled ==> pendingFlag == (!stopped && (stressMode || bytesAllocSince >= threshold))
    {
      hide InOrder, OnChain;
      stopped := on;
      UpdatePending();
    }

    method SetStressMode(on: bool)
      requires Valid()
      modifies `stressMode, `pendingLast, `pendingFlag
      ensures Valid() && stressMode == on
      ensures pendingInstalled ==> pendingFlag == (!stopped && (stressMode || bytesAllocSince >= threshold))
    {
      hide InOrder, OnChain;
      stressMode := on;
      UpdatePending();
    }

    /** Installs a word that holds 0 as the flag compiled loops poll. */
    method SetGCPendingRef()
      requires Valid()
      modifies `pendingInstalled, `pendingLast, `pendingFlag
      ensures Valid() && pendingInstalled
      ensures pendingFlag == (!stopped && (stressMode || bytesAllocSince >= threshold))
    {
      hide InOrder, OnChain;
      pendingInstalled, pendingFlag := true, false;
      pendingLast := false;
      UpdatePending();
    }

    /** Replaces the roots outside the heap. */
    method SetRoots(refs: seq<nat>, values: seq<Value>, ids: seq<nat>)
      requires Valid() && RootsOk(heap, refs, values, ids, threads)
      modifies `rootRefs, `rootValues, `active
      ensures Valid() && rootRefs == refs && rootValues == values && active == ids
    {
      hide NoDangling, ThreadsOk, ChainOk, InternOk, RootsOk;
      rootRefs, rootValues, active := refs, values, ids;
    }
  }

  lemma PlainString(h: Heap, ts: Threads, b: Bytes)
    ensures PlainOk(h, ts, Str(b))
  {
  }

  lemma BucketCount(bs: Buckets, texts: Texts, hash: Bytes -> nat)
    requires BucketsOk(bs, texts, hash)
    ensures |bs| > 0
  {
  }

  /** A thread's record once r is open for slot i. */
  function WithOpen(ts: Threads, id: nat, i: nat, r: nat): Threads
    requires id in ts
  {
    ts[id := ts[id].(open := ts[id].open[i := r])]
  }

  function EmptyBuckets(): Buckets {
    seq(16, _ => [])
  }

  lemma RootsMore(h: Heap, h': Heap, refs: seq<nat>, values: seq<Value>, active: seq<nat>, ts: Threads)
    requires RootsOk(h, refs, values, active, ts) && h.Keys <= h'.Keys
    ensures RootsOk(h', refs, values, active, ts)
  {
  }

  lemma EmptyOk(hash: Bytes -> nat)
    ensures var ts: Threads := map[MAIN := ThreadRecord(0, [], map[], Nil, [], false)];
      && ThreadsOk(map[], ts) && NoDangling(map[], ts) && RootsOk(map[], [], [], [MAIN], ts)
      && InternOk(EmptyBuckets(), 0, map[], hash) && ChainOk(0, map[], [])
  {
    var ts: Threads := map[MAIN := ThreadRecord(0, [], map[], Nil, [], false)];
    OnlyMain(ts);
    MainRoots(ts);
    NoStrings(hash);
    hide InternOk, RootsOk, ThreadsOk, NoDangling;
  }

  lemma OnlyMain(ts: Threads)
    requires ts == map[MAIN := ThreadRecord(0, [], map[], Nil, [], false)]
    ensures ThreadsOk(map[], ts) && NoDangling(map[], ts)
  {
    NoRefs(ts[MAIN]);
    hide ThreadRefs, RefsIn, Kids, WeakRefs;
  }

  lemma MainRoots(ts: Threads)
    requires ts == map[MAIN := ThreadRecord(0, [], map[], Nil, [], false)]
    ensures RootsOk(map[], [], [], [MAIN], ts)
  {
    NoRefs(ts[MAIN]);
    hide ActiveRefs, RefsIn;
  }

  lemma NoRefs(t: ThreadRecord)
    requires t == ThreadRecord(0, [], map[], Nil, [], false)
    ensures RefsIn([]) == {} && ThreadRefs(t) == {} && ActiveRefs(t) == {0}
  {
  }

  lemma NoStrings(hash: Bytes -> nat)
    ensures InternOk(EmptyBuckets(), 0, map[], hash)
  {
    assert IsPow2(2) && IsPow2(4) && IsPow2(8);
    var bs := EmptyBuckets();
    assert forall k: nat :: k < 16 ==> BucketOk(bs[k], k, 16, map[], hash);
  }

  lemma OnlyString(h: Heap, bs: Buckets, count: nat, hash: Bytes -> nat, r: nat, b: Bytes)
    requires InternOk(bs, count, TextsOf(h), hash) && r in TextsOf(h) && TextsOf(h)[r] == b
    ensures forall s :: s in h && h[s] == Str(b) ==> s == r
  {
    forall s | s in h && h[s] == Str(b) ensures s == r {
      assert s in TextsOf(h);
    }
  }

  lemma TextsLess(h: Heap, r: nat)
    requires r in h
    ensures TextsOf(h - {r}) == TextsOf(h) - {r}
    ensures !h[r].Str? ==> TextsOf(h - {r}) == TextsOf(h)
  {
  }

  lemma NoString(h: Heap, b: Bytes)
    requires forall s :: s in TextsOf(h) ==> TextsOf(h)[s] != b
    ensures forall s :: s in h ==> h[s] != Str(b)
  {
    forall s | s in h ensures h[s] != Str(b) {
      if h[s].Str? { assert TextsOf(h)[s] == h[s].bytes; }
    }
  }

  lemma NewThreadRoots(h: Heap, refs: seq<nat>, values: seq<Value>, active: seq<nat>, ts: Threads, at: nat, id: nat,
                       fn: Value)
    requires RootsOk(h, refs, values, active, ts) && id !in ts
    ensures var ts' := ts[id := ThreadRecord(at, [], map[], fn, [], false)];
      && RootSet(refs, values, active, ts') == RootSet(refs, values, active, ts)
      && RootsOk(h[at := Thread(id)], refs, values, active, ts')
  {
    var ts' := ts[id := ThreadRecord(at, [], map[], fn, [], false)];
    assert forall j :: j in active ==> ts'[j] == ts[j];
    forall k ensures k in RootSet(refs, values, active, ts') <==> k in RootSet(refs, values, active, ts) {
    }
  }

  lemma OpenValuesIn(h: Heap, ts: Threads, id: nat)
    requires ThreadsOk(h, ts) && id in ts
    ensures ts[id].open.Values <= h.Keys
  {
  }

  lemma ActiveAlive(h: Heap, refs: seq<nat>, values: seq<Value>, active: seq<nat>, ts: Threads)
    requires RootsOk(h, refs, values, active, ts)
    ensures forall id :: id in active ==> id in ts && !ts[id].dead
  {
  }

  /** Closing an upvalue does not change its value. */
  lemma LeftValues(h: Heap, ts: Threads, id: nat, level: nat)
    requires ThreadsOk(h, ts) && id in ts
    ensures var h', ts' := ClosedFrom(h, ts, {id}, level), ts[id := Trimmed(ts[id], level)];
      && OwnsUpvals(h, ts, id) && h'.Keys == h.Keys && TextsOf(h') == TextsOf(h)
      && forall u :: u in h ==> UpvalValue(ts', h'[u]) == UpvalValue(ts, h[u])
  {
  }

  lemma LeftRoots(h: Heap, h': Heap, refs: seq<nat>, values: seq<Value>, active: seq<nat>, ts: Threads, id: nat,
                  level: nat)
    requires RootsOk(h, refs, values, active, ts) && h.Keys == h'.Keys && id in ts
    ensures RootsOk(h', refs, values, active, ts[id := Trimmed(ts[id], level)])
  {
    var ts' := ts[id := Trimmed(ts[id], level)];
    assert Trimmed(ts[id], level).open.Values <= ts[id].open.Values;
    forall k | k in RootSet(refs, values, active, ts') ensures k in h' {
      if k !in (set r | r in refs) + RefsIn(values) {
        var j :| j in active && j in ts' && k in ActiveRefs(ts'[j]);
        assert k in ActiveRefs(ts[j]);
      }
    }
  }

  lemma DeadRoots(h: Heap, refs: seq<nat>, values: seq<Value>, active: seq<nat>, ts: Threads, id: nat)
    requires RootsOk(h, refs, values, active, ts) && id in ts && id !in active
    ensures RootsOk(h, refs, values, active, ts[id := Deceased(ts[id])])
  {
    var ts' := ts[id := Deceased(ts[id])];
    forall k | k in RootSet(refs, values, active, ts') ensures k in RootSet(refs, values, active, ts) {
      if k !in (set r | r in refs) + RefsIn(values) {
        var j :| j in active && j in ts' && k in ActiveRefs(ts'[j]);
        assert k in ActiveRefs(ts[j]);
      }
    }
  }

  lemma DeadValues(h: Heap, ts: Threads, id: nat)
    requires id in ts
    ensures forall u :: u in h ==> UpvalValue(ts[id := Deceased(ts[id])], h[u]) == UpvalValue(ts, h[u])
  {
  }

  lemma NewUpvalRoots(h: Heap, refs: seq<nat>, values: seq<Value>, active: seq<nat>, ts: Threads, id: nat, i: nat,
                      at: nat, o: Obj)
    requires RootsOk(h, refs, values, active, ts) && id in ts
    ensures RootsOk(h[at := o], refs, values, active, ts[id := ts[id].(open := ts[id].open[i := at])])
  {
    var ts' := ts[id := ts[id].(open := ts[id].open[i := at])];
    forall k | k in RootSet(refs, values, active, ts') ensures k in h || k == at {
      if k !in (set r | r in refs) + RefsIn(values) {
        var j :| j in active && j in ts' && k in ActiveRefs(ts'[j]);
        assert k in ActiveRefs(ts[j]) || k == at;
      }
    }
  }

  lemma NoneListed(h: Heap, before: Colors, color: Colors, dead: Color)
    requires dead.White? && Onward(before, color, dead) && forall r :: r in before ==> before[r] == dead
    ensures WeakListed(h, color, [], 0)
  {
  }

  lemma RootsNotNull(refs: seq<nat>, values: seq<Value>, active: seq<nat>, ts: Threads)
    ensures 0 !in RootSet(refs, values, active, ts)
  {
  }

  lemma RootsMarked(rs: set<nat>, before: Colors, color: Colors, dead: Color)
    requires AllSeen(before, dead, rs) && 0 !in rs
    requires forall x :: Marked(before, dead, x) ==> Marked(color, dead, x)
    ensures forall r :: r in rs ==> Marked(color, dead, r)
  {
    forall r | r in rs ensures Marked(color, dead, r) {
      assert Seen(before, dead, r);
    }
  }

  /** When marking ends the colours tell what is live. */
  lemma LiveColors(h: Heap, ts: Threads, rs: set<nat>, color: Colors, dead: Color, weakList: seq<nat>)
    requires Marking(Edges(h, ts), rs, color, [], dead, 0) && WeakListed(h, color, weakList, 0)
    requires forall r :: r in rs ==> Marked(color, dead, r)
    ensures var live := Live(Edges(h, ts), rs);
      && live <= h.Keys && color.Keys == h.Keys
      && (forall r :: r in h ==> (color[r] == dead <==> r !in live))
      && (forall t :: t in weakList <==> t in h && t in live && IsWeak(h[t]))
      && (forall i, j :: 0 <= i < j < |weakList| ==> weakList[i] != weakList[j])
  {
    GraphHas(h, ts);
    MarkedIsReachable(Edges(h, ts), rs, color, dead);
    hide Marking, Reachable;
    assert 0 !in h by { NoZero(h, ts, rs, color, dead); }
  }

  lemma NoZero(h: Heap, ts: Threads, rs: set<nat>, color: Colors, dead: Color)
    requires Marking(Edges(h, ts), rs, color, [], dead, 0)
    ensures 0 !in h
  {
    GraphHas(h, ts);
  }

  lemma ReleasedWeak(h: Heap, ts: Threads, live: set<nat>, h1: Heap)
    requires ThreadsOk(h, ts) && NoDangling(h, ts)
    requires h1 == ClosedFrom(h, ts, DeadThreads(ts, live), 0)
    ensures h1.Keys == h.Keys
    ensures forall t :: t in h ==> (IsWeak(h1[t]) <==> IsWeak(h[t])) && WeakRefs(h1[t]) <= h1.Keys
  {
    forall t | t in h ensures (IsWeak(h1[t]) <==> IsWeak(h[t])) && WeakRefs(h1[t]) <= h1.Keys {
      assert Kids(ts, h[t]) + WeakRefs(h[t]) <= h.Keys;
    }
  }

  lemma TextsKept(h: Heap, ts: Threads, live: set<nat>, h1: Heap, h2: Heap)
    requires h1 == ClosedFrom(h, ts, DeadThreads(ts, live), 0)
    requires h2 == map r | r in h1 :: if r in live && IsWeak(h1[r]) then ClearTable(h1[r], live) else h1[r]
    ensures h2.Keys == h.Keys && TextsOf(h2) == TextsOf(h)
  {
    forall r | r in h ensures h2[r].Str? <==> h[r].Str? {
      assert r in h1;
    }
    forall r | r in h && h[r].Str? ensures h2[r] == h[r] {
    }
  }

  /** The live objects are closed under references and hold what the main thread needs. */
  lemma LiveClosed(h: Heap, ts: Threads, refs: seq<nat>, values: seq<Value>, active: seq<nat>)
    requires ThreadsOk(h, ts) && NoDangling(h, ts) && RootsOk(h, refs, values, active, ts)
    ensures var live := Live(Edges(h, ts), RootSet(refs, values, active, ts));
      && RootSet(refs, values, active, ts) <= live <= h.Keys
      && (forall r :: r in live ==> Kids(ts, h[r]) <= live)
      && ThreadRefs(ts[MAIN]) - {0} <= live
  {
    var g, rs := Edges(h, ts), RootSet(refs, values, active, ts);
    var live := Live(g, rs);
    forall r | r in rs ensures r in live { RootReachable(g, rs, r); }
    forall r, k | r in live && k in Kids(ts, h[r]) ensures k in live {
      assert k in h;
      KidReachable(g, rs, r, k);
    }
    assert ThreadRefs(ts[MAIN]) == RefsIn(ts[MAIN].stack) + ts[MAIN].open.Values + RefsIn([Nil]) + RefsIn([]);
    hide Reachable, Kids, Edges;
    forall k | k in ThreadRefs(ts[MAIN]) && k != 0 ensures k in rs {
      assert k in ActiveRefs(ts[MAIN]);
    }
  }

  lemma CollectedInOrder(h: Heap, ts: Threads, refs: seq<nat>, values: seq<Value>, active: seq<nat>)
    requires ThreadsOk(h, ts) && NoDangling(h, ts) && RootsOk(h, refs, values, active, ts)
    ensures var live := Live(Edges(h, ts), RootSet(refs, values, active, ts));
      var h', ts' := SurvivingHeap(h, ts, live), SurvivingThreads(ts, live);
      ThreadsOk(h', ts') && NoDangling(h', ts') && RootsOk(h', refs, values, active, ts')
  {
    hide ThreadsOk, NoDangling, RootsOk, Edges, RootSet, Live, SurvivingHeap, SurvivingThreads;
    LiveClosed(h, ts, refs, values, active);
    var live := Live(Edges(h, ts), RootSet(refs, values, active, ts));
    CollectedOk(h, ts, live);
    NullFree(h, ts);
    CollectedRoots(h, ts, live, refs, values, active);
  }

  lemma CollectedRoots(h: Heap, ts: Threads, live: set<nat>, refs: seq<nat>, values: seq<Value>, active: seq<nat>)
    requires ThreadsOk(h, ts) && RootsOk(h, refs, values, active, ts) && 0 !in h
    requires RootSet(refs, values, active, ts) <= live <= h.Keys
    ensures RootsOk(SurvivingHeap(h, ts, live), refs, values, active, SurvivingThreads(ts, live))
  {
    var ts' := SurvivingThreads(ts, live);
    forall id | id in active ensures id in ts' {
      if id != MAIN {
        assert ts[id].ref in h && ts[id].ref in ActiveRefs(ts[id]);
      }
    }
    assert RootSet(refs, values, active, ts') == RootSet(refs, values, active, ts);
  }
}
