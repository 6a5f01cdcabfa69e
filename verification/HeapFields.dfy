/** What the heap's fields refer to, field by field, and what that makes of roots, references and
    survivors (internal/gc/mark.go:10-35, 76-172, internal/gc/sweep.go:165-209). */
module HeapFields {
  import opened Values
  import opened ObjectGraph

  /** The value refers to the object at k. */
  predicate Names(v: Value, k: nat) {
    v.Ref? && v.ref == k
  }

  /** A value's reference, if it has one, leads into the heap. */
  predicate Leads(h: Heap, v: Value) {
    v.Ref? && v.ref != 0 ==> v.ref in h
  }

  predicate LeadsTo(h: Heap, r: nat) {
    r != 0 ==> r in h
  }

  // ---- nothing dangles ----

  /** Every field of the object leads into the heap, weak sides included. */
  ghost predicate FieldsLead(h: Heap, ts: Threads, o: Obj) {
    match o
    case Str(_) => true
    case Table(slots, nodes, meta, _, _, _) =>
      && LeadsTo(h, meta)
      && (forall i :: 0 <= i < |slots| ==> Leads(h, slots[i]))
      && (forall i :: 0 <= i < |nodes| ==> Leads(h, nodes[i].key) && Leads(h, nodes[i].val))
    case LuaClosure(upvals) => forall i :: 0 <= i < |upvals| ==> LeadsTo(h, upvals[i])
    case HostClosure(vals) => forall i :: 0 <= i < |vals| ==> Leads(h, vals[i])
    case Userdata(meta, env) => LeadsTo(h, meta) && LeadsTo(h, env)
    case Thread(id) => id in ts && RecordLeads(h, ts[id])
    case ClosedUpval(v) => Leads(h, v)
    case OpenUpval(owner, idx) => owner in ts && idx < |ts[owner].stack| && Leads(h, ts[owner].stack[idx])
  }

  /** So does what a thread's record holds, unless it is dead. */
  ghost predicate RecordLeads(h: Heap, t: ThreadRecord) {
    !t.dead ==>
      && (forall i :: 0 <= i < |t.stack| ==> Leads(h, t.stack[i]))
      && (forall i :: i in t.open ==> LeadsTo(h, t.open[i]))
      && Leads(h, t.fn)
      && (forall i :: 0 <= i < |t.xfer| ==> Leads(h, t.xfer[i]))
  }

  /** Every field of every object and record leads into the heap. */
  ghost predicate AllLead(h: Heap, ts: Threads) {
    && (forall r :: r in h ==> FieldsLead(h, ts, h[r]))
    && (forall id :: id in ts ==> RecordLeads(h, ts[id]))
  }

  /** So does every root. */
  ghost predicate RootsLead(h: Heap, ts: Threads, refs: seq<nat>, values: seq<Value>, active: seq<nat>) {
    && (forall i :: 0 <= i < |refs| ==> LeadsTo(h, refs[i]))
    && (forall i :: 0 <= i < |values| ==> Leads(h, values[i]))
    && (forall i :: 0 <= i < |active| ==>
          active[i] in ts && !ts[active[i]].dead && RecordLeads(h, ts[active[i]]) && LeadsTo(h, ts[active[i]].ref))
  }

  lemma RecordLeading(h: Heap, t: ThreadRecord)
    requires ThreadRefs(t) - {0} <= h.Keys
    ensures RecordLeads(h, t)
  {
    if !t.dead {
      forall i | 0 <= i < |t.stack| ensures Leads(h, t.stack[i]) {
        assert t.stack[i] in t.stack;
      }
      forall i | i in t.open ensures LeadsTo(h, t.open[i]) {
        assert t.open[i] in t.open.Values;
      }
      assert t.fn in [t.fn];
      forall i | 0 <= i < |t.xfer| ensures Leads(h, t.xfer[i]) {
        assert t.xfer[i] in t.xfer;
      }
    }
  }

  lemma ObjectLeading(h: Heap, ts: Threads, r: nat)
    requires ThreadsOk(h, ts) && NoDangling(h, ts) && r in h
    ensures FieldsLead(h, ts, h[r])
  {
    var o := h[r];
    assert Kids(ts, o) + WeakRefs(o) <= h.Keys;
    if o.Thread? {
      RecordLeading(h, ts[o.id]);
    } else if o.OpenUpval? {
      assert OpenIn(ts, o, r);
      assert OpenValue(ts, o.owner, o.idx) in [OpenValue(ts, o.owner, o.idx)];
    } else {
      hide ThreadsOk, NoDangling;
      PlainLeading(h, ts, o);
    }
  }

  lemma PlainLeading(h: Heap, ts: Threads, o: Obj)
    requires !o.Thread? && !o.OpenUpval? && Kids(ts, o) + WeakRefs(o) <= h.Keys
    ensures FieldsLead(h, ts, o)
  {
    if o.Table? {
      forall i | 0 <= i < |o.slots| ensures Leads(h, o.slots[i]) {
        assert o.slots[i] in o.slots;
        if o.slots[i].Ref? { assert o.slots[i].ref in RefsIn(o.slots); }
      }
      forall i | 0 <= i < |o.nodes| ensures Leads(h, o.nodes[i].key) && Leads(h, o.nodes[i].val) {
        assert o.nodes[i] in o.nodes;
        if o.nodes[i].key.Ref? { assert o.nodes[i].key.ref in KeyRefs(o.nodes); }
        if o.nodes[i].val.Ref? { assert o.nodes[i].val.ref in ValRefs(o.nodes); }
      }
    } else if o.LuaClosure? {
      forall i | 0 <= i < |o.upvals| ensures LeadsTo(h, o.upvals[i]) {
        assert o.upvals[i] in o.upvals;
      }
    } else if o.HostClosure? {
      forall i | 0 <= i < |o.vals| ensures Leads(h, o.vals[i]) {
        assert o.vals[i] in o.vals;
      }
    } else if o.ClosedUpval? {
      assert o.v in [o.v];
    }
  }

  /** What a program may put in the heap: an object whose fields lead into it. */
  lemma PlainIsFields(h: Heap, ts: Threads, o: Obj)
    requires 0 !in h
    ensures PlainOk(h, ts, o) <==> !o.Thread? && !o.OpenUpval? && FieldsLead(h, ts, o) && !WeaklyHolds(o, 0)
  {
    WeakAreFields(o, 0);
    if PlainOk(h, ts, o) {
      PlainLeading(h, ts, o);
    } else if !o.Thread? && !o.OpenUpval? && FieldsLead(h, ts, o) {
      var k :| k in Kids(ts, o) + WeakRefs(o) && k !in h;
      KidsAreFields(ts, o, k);
      WeakAreFields(o, k);
    }
  }

  /** A weak side of the table refers to k. */
  ghost predicate WeaklyHolds(o: Obj, k: nat) {
    && o.Table?
    && (|| (o.weakVal && exists i :: 0 <= i < |o.slots| && Names(o.slots[i], k))
        || (o.weakVal && exists i :: 0 <= i < |o.nodes| && Names(o.nodes[i].val, k))
        || (o.weakKey && exists i :: 0 <= i < |o.nodes| && Names(o.nodes[i].key, k)))
  }

  lemma WeakAreFields(o: Obj, k: nat)
    ensures k in WeakRefs(o) <==> WeaklyHolds(o, k)
  {
    if o.Table? {
      ValuesNamed(o.slots, k);
      NodesNamed(o.nodes, k);
    }
    hide RefsIn, KeyRefs, ValRefs, Names;
  }

  lemma HeapLeads(h: Heap, ts: Threads)
    requires ThreadsOk(h, ts) && NoDangling(h, ts)
    ensures AllLead(h, ts)
  {
    forall r | r in h ensures FieldsLead(h, ts, h[r]) {
      ObjectLeading(h, ts, r);
    }
    forall id | id in ts ensures RecordLeads(h, ts[id]) {
      RecordLeading(h, ts[id]);
    }
  }

  lemma RootsLeading(h: Heap, ts: Threads, refs: seq<nat>, values: seq<Value>, active: seq<nat>)
    requires RootsOk(h, refs, values, active, ts) && AllLead(h, ts)
    ensures RootsLead(h, ts, refs, values, active)
  {
    hide FieldsLead, RecordLeads;
    var rs := RootSet(refs, values, active, ts);
    forall i | 0 <= i < |refs| ensures LeadsTo(h, refs[i]) {
      assert refs[i] in refs && (refs[i] != 0 ==> refs[i] in rs);
    }
    forall i | 0 <= i < |values| ensures Leads(h, values[i]) {
      assert values[i] in values;
      if values[i].Ref? && values[i].ref != 0 { assert values[i].ref in RefsIn(values) && values[i].ref in rs; }
    }
    forall i | 0 <= i < |active|
      ensures active[i] in ts && !ts[active[i]].dead && RecordLeads(h, ts[active[i]]) && LeadsTo(h, ts[active[i]].ref)
    {
      assert active[i] in active && ts[active[i]].ref in ActiveRefs(ts[active[i]]);
      if ts[active[i]].ref != 0 { assert ts[active[i]].ref in rs; }
    }
  }

  // ---- what is kept alive ----

  /** A field of the object refers to k; those on a weak side of a table do not count. */
  ghost predicate Refers(ts: Threads, o: Obj, k: nat) {
    match o
    case Str(_) => false
    case Table(slots, nodes, meta, weakKey, weakVal, _) =>
      || meta == k
      || (!weakVal && exists i :: 0 <= i < |slots| && Names(slots[i], k))
      || (!weakVal && exists i :: 0 <= i < |nodes| && Names(nodes[i].val, k))
      || (!weakKey && exists i :: 0 <= i < |nodes| && Names(nodes[i].key, k))
    case LuaClosure(upvals) => exists i :: 0 <= i < |upvals| && upvals[i] == k
    case HostClosure(vals) => exists i :: 0 <= i < |vals| && Names(vals[i], k)
    case Userdata(meta, env) => meta == k || env == k
    case Thread(id) => id in ts && !ts[id].dead && RecordRefers(ts[id], k)
    case ClosedUpval(v) => Names(v, k)
    case OpenUpval(owner, idx) => owner in ts && idx < |ts[owner].stack| && Names(ts[owner].stack[idx], k)
  }

  ghost predicate RecordRefers(t: ThreadRecord, k: nat) {
    || (exists i :: 0 <= i < |t.stack| && Names(t.stack[i], k))
    || (exists i :: i in t.open && t.open[i] == k)
    || Names(t.fn, k)
    || (exists i :: 0 <= i < |t.xfer| && Names(t.xfer[i], k))
  }

  /** A root refers to k: one of the runtime's references or values, or a thread that runs or waits on the
      resume chain, with its stack, its open upvalues and its object. */
  ghost predicate RootRefers(ts: Threads, refs: seq<nat>, values: seq<Value>, active: seq<nat>, k: nat) {
    || (exists i :: 0 <= i < |refs| && refs[i] == k)
    || (exists i :: 0 <= i < |values| && Names(values[i], k))
    || (exists i :: 0 <= i < |active| && active[i] in ts && ActiveRefers(ts[active[i]], k))
  }

  ghost predicate ActiveRefers(t: ThreadRecord, k: nat) {
    || t.ref == k
    || (exists i :: 0 <= i < |t.stack| && Names(t.stack[i], k))
    || (exists i :: i in t.open && t.open[i] == k)
  }

  /** A chain of fields leads from a root to the last object of p. */
  ghost predicate Chain(h: Heap, ts: Threads, refs: seq<nat>, values: seq<Value>, active: seq<nat>, p: seq<nat>) {
    && |p| > 0 && p[0] != 0 && RootRefers(ts, refs, values, active, p[0])
    && (forall i :: 0 <= i < |p| ==> p[i] != 0 && p[i] in h)
    && (forall i :: 0 < i < |p| ==> Refers(ts, h[p[i - 1]], p[i]))
  }

  ghost predicate Reached(h: Heap, ts: Threads, refs: seq<nat>, values: seq<Value>, active: seq<nat>, r: nat) {
    exists p :: Chain(h, ts, refs, values, active, p) && p[|p| - 1] == r
  }

  lemma ValuesNamed(vs: seq<Value>, k: nat)
    ensures k in RefsIn(vs) <==> exists i :: 0 <= i < |vs| && Names(vs[i], k)
  {
    if k in RefsIn(vs) {
      var v :| v in vs && v.Ref? && v.ref == k;
      var i :| 0 <= i < |vs| && vs[i] == v;
      assert Names(vs[i], k);
    }
  }

  lemma NodesNamed(nodes: seq<Slot>, k: nat)
    ensures k in KeyRefs(nodes) <==> exists i :: 0 <= i < |nodes| && Names(nodes[i].key, k)
    ensures k in ValRefs(nodes) <==> exists i :: 0 <= i < |nodes| && Names(nodes[i].val, k)
  {
    if k in KeyRefs(nodes) {
      var s :| s in nodes && s.key.Ref? && s.key.ref == k;
      var i :| 0 <= i < |nodes| && nodes[i] == s;
      assert Names(nodes[i].key, k);
    }
    if k in ValRefs(nodes) {
      var s :| s in nodes && s.val.Ref? && s.val.ref == k;
      var i :| 0 <= i < |nodes| && nodes[i] == s;
      assert Names(nodes[i].val, k);
    }
  }

  lemma OpenNamed(open: map<nat, nat>, k: nat)
    ensures k in open.Values <==> exists i :: i in open && open[i] == k
  {
  }

  lemma RecordNamed(t: ThreadRecord, k: nat)
    ensures k in ThreadRefs(t) <==> !t.dead && RecordRefers(t, k)
  {
    ValuesNamed(t.stack, k);
    OpenNamed(t.open, k);
    ValuesNamed([t.fn], k);
    assert [t.fn][0] == t.fn;
    ValuesNamed(t.xfer, k);
  }

  /** The references marking follows from an object are those in its fields. */
  lemma KidsAreFields(ts: Threads, o: Obj, k: nat)
    ensures k in Kids(ts, o) <==> k != 0 && Refers(ts, o, k)
  {
    if o.Table? {
      ValuesNamed(o.slots, k);
      NodesNamed(o.nodes, k);
    } else if o.HostClosure? {
      ValuesNamed(o.vals, k);
    } else if o.Thread? {
      if o.id in ts { RecordNamed(ts[o.id], k); }
    } else if o.ClosedUpval? {
      ValuesNamed([o.v], k);
      assert [o.v][0] == o.v;
    } else if o.OpenUpval? {
      var v := OpenValue(ts, o.owner, o.idx);
      ValuesNamed([v], k);
      assert [v][0] == v;
    }
    hide RefsIn, KeyRefs, ValRefs, ThreadRefs, Names, RecordRefers;
  }

  lemma RootsAreFields(ts: Threads, refs: seq<nat>, values: seq<Value>, active: seq<nat>, k: nat)
    ensures k in RootSet(refs, values, active, ts) <==> k != 0 && RootRefers(ts, refs, values, active, k)
  {
    ValuesNamed(values, k);
    hide RefsIn, Names, ActiveRefs;
    forall i | 0 <= i < |active| && active[i] in ts
      ensures k in ActiveRefs(ts[active[i]]) <==> ActiveRefers(ts[active[i]], k)
    {
      ActiveNamed(ts[active[i]], k);
    }
    hide ActiveRefers;
    if k in RootSet(refs, values, active, ts) && k !in (set r | r in refs) && k !in RefsIn(values) {
      var id :| id in active && id in ts && k in ActiveRefs(ts[id]);
      var i :| 0 <= i < |active| && active[i] == id;
      assert ActiveRefers(ts[active[i]], k);
    }
  }

  lemma ActiveNamed(t: ThreadRecord, k: nat)
    ensures k in ActiveRefs(t) <==> ActiveRefers(t, k)
  {
    ValuesNamed(t.stack, k);
    OpenNamed(t.open, k);
  }

  /** What marking reaches is what chains of fields lead to from a root. */
  lemma LiveIsReached(h: Heap, ts: Threads, refs: seq<nat>, values: seq<Value>, active: seq<nat>, r: nat)
    requires 0 !in h
    ensures r in Live(Edges(h, ts), RootSet(refs, values, active, ts)) <==> Reached(h, ts, refs, values, active, r)
  {
    var g, rs := Edges(h, ts), RootSet(refs, values, active, ts);
    forall p | |p| > 0 ensures Path(g, rs, p) <==> Chain(h, ts, refs, values, active, p) {
      PathIsChain(h, ts, refs, values, active, p);
    }
    hide Path, Chain, Edges, RootSet;
    if r in Live(g, rs) {
      var p :| Path(g, rs, p) && p[|p| - 1] == r;
      assert Chain(h, ts, refs, values, active, p);
    }
    if Reached(h, ts, refs, values, active, r) {
      var p :| Chain(h, ts, refs, values, active, p) && p[|p| - 1] == r;
      assert Path(g, rs, p);
      EndThere(h, ts, refs, values, active, p);
    }
  }

  lemma EndThere(h: Heap, ts: Threads, refs: seq<nat>, values: seq<Value>, active: seq<nat>, p: seq<nat>)
    requires Chain(h, ts, refs, values, active, p)
    ensures |p| > 0 && p[|p| - 1] in Edges(h, ts)
  {
  }

  lemma PathIsChain(h: Heap, ts: Threads, refs: seq<nat>, values: seq<Value>, active: seq<nat>, p: seq<nat>)
    requires 0 !in h && |p| > 0
    ensures Path(Edges(h, ts), RootSet(refs, values, active, ts), p) <==> Chain(h, ts, refs, values, active, p)
  {
    RootsAreFields(ts, refs, values, active, p[0]);
    forall i | 0 < i < |p| && p[i - 1] in h
      ensures p[i] in Kids(ts, h[p[i - 1]]) <==> p[i] != 0 && Refers(ts, h[p[i - 1]], p[i])
    {
      KidsAreFields(ts, h[p[i - 1]], p[i]);
    }
    hide Kids, Refers, RootSet, RootRefers;
  }

  // ---- what a collection leaves ----

  /** The value refers to an object that is not among the survivors. */
  predicate Gone(h: Heap, v: Value) {
    v.Ref? && v.ref !in h
  }

  /** An object as a collection leaves it, h the survivors: the same, but for the dead entries of a weak
      table and for an open upvalue whose thread went, which keeps its value. */
  ghost predicate LeftAs(ts: Threads, o: Obj, h: Heap, o': Obj) {
    match o
    case Table(slots, nodes, meta, weakKey, weakVal, gen) =>
      && o'.Table? && o'.meta == meta && o'.weakKey == weakKey && o'.weakVal == weakVal
      && |o'.slots| == |slots| && |o'.nodes| == |nodes|
      && (forall i :: 0 <= i < |slots| ==> o'.slots[i] == if weakVal && Gone(h, slots[i]) then Nil else slots[i])
      && (forall i :: 0 <= i < |nodes| ==>
            o'.nodes[i] == if (weakKey && Gone(h, nodes[i].key)) || (weakVal && Gone(h, nodes[i].val))
                           then Slot(Nil, Nil, nodes[i].next) else nodes[i])
    case OpenUpval(owner, idx) =>
      && owner in ts && idx < |ts[owner].stack|
      && o' == if owner != MAIN && ts[owner].ref !in h then ClosedUpval(ts[owner].stack[idx]) else o
    case _ => o' == o
  }

  /** After a collection: the objects left are those some chain of fields led to, each as it was but for what
      died with the others, and so are the records of their threads. */
  ghost predicate CollectedAs(h: Heap, ts: Threads, refs: seq<nat>, values: seq<Value>, active: seq<nat>,
                              h': Heap, ts': Threads) {
    && (forall r :: r in h' <==> r in h && Reached(h, ts, refs, values, active, r))
    && (forall r :: r in h' ==> LeftAs(ts, h[r], h', h'[r]))
    && (forall id :: id in ts' <==> id in ts && (id == MAIN || ts[id].ref in h'))
    && (forall id :: id in ts' ==> ts'[id] == ts[id])
  }

  lemma SurvivorLeft(h: Heap, ts: Threads, live: set<nat>, r: nat)
    requires ThreadsOk(h, ts) && r in h && r in live && live <= h.Keys
    ensures LeftAs(ts, h[r], SurvivingHeap(h, ts, live), Survivor(ts, h[r], live))
  {
    var o, h', o' := h[r], SurvivingHeap(h, ts, live), Survivor(ts, h[r], live);
    assert h'.Keys == live;
    if o.Table? {
      hide SurvivingHeap, ThreadsOk;
      TableLeft(o, live, h');
    } else if o.OpenUpval? {
      assert OpenIn(ts, o, r);
    }
  }

  lemma TableLeft(o: Obj, live: set<nat>, h: Heap)
    requires o.Table? && h.Keys == live
    ensures LeftAs(map[], o, h, if IsWeak(o) then ClearTable(o, live) else o)
  {
    var o' := if IsWeak(o) then ClearTable(o, live) else o;
    forall i | 0 <= i < |o.nodes|
      ensures o'.nodes[i] == if (o.weakKey && Gone(h, o.nodes[i].key)) || (o.weakVal && Gone(h, o.nodes[i].val))
                             then Slot(Nil, Nil, o.nodes[i].next) else o.nodes[i]
    {
    }
  }

  lemma SurvivorsAre(h: Heap, ts: Threads, refs: seq<nat>, values: seq<Value>, active: seq<nat>)
    requires ThreadsOk(h, ts) && 0 !in h
    ensures var live := Live(Edges(h, ts), RootSet(refs, values, active, ts));
      CollectedAs(h, ts, refs, values, active, SurvivingHeap(h, ts, live), SurvivingThreads(ts, live))
  {
    var live := Live(Edges(h, ts), RootSet(refs, values, active, ts));
    assert live <= h.Keys by { hide Reachable, RootSet; }
    var h' := SurvivingHeap(h, ts, live);
    assert h'.Keys == live;
    forall r | r in h ensures r in live <==> Reached(h, ts, refs, values, active, r) {
      LiveIsReached(h, ts, refs, values, active, r);
    }
    hide Live, Edges, RootSet, Reached, LeftAs;
    forall r | r in h' ensures LeftAs(ts, h[r], h', h'[r]) {
      SurvivorLeft(h, ts, live, r);
    }
  }

  /** An object when thread `id` leaves its stack from `level` on: an open upvalue there takes its slot's
      value along. */
  ghost predicate ClosesAs(ts: Threads, id: nat, level: nat, o: Obj, o': Obj) {
    if !o.OpenUpval? then o' == o
    else
      && o.owner in ts && o.idx < |ts[o.owner].stack|
      && o' == if o.owner == id && o.idx >= level then ClosedUpval(ts[id].stack[o.idx]) else o
  }

  /** The thread's record then: it no longer lists the upvalues closed. */
  ghost predicate ShutsAs(t: ThreadRecord, level: nat, t': ThreadRecord) {
    && t' == t.(open := t'.open)
    && (forall i :: i in t'.open <==> i in t.open && i < level)
    && (forall i :: i in t'.open ==> t'.open[i] == t.open[i])
  }

  lemma AllClose(h: Heap, ts: Threads, id: nat, level: nat)
    requires ThreadsOk(h, ts)
    ensures var h' := ClosedFrom(h, ts, {id}, level);
      h'.Keys == h.Keys && forall u :: u in h ==> u in h' && ClosesAs(ts, id, level, h[u], h'[u])
  {
    forall u | u in h && h[u].OpenUpval? ensures OpenIn(ts, h[u], u) {
    }
  }
}
