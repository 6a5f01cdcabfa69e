/** The collector's view of the heap: objects, the references they hold, and which of them marking
    follows (internal/gc/mark.go:65-172, internal/object). A reference is an address; 0 is null. */
module ObjectGraph {
  import opened Values

  datatype Slot = Slot(key: Value, val: Value, next: int)

  datatype Obj =
    | Str(bytes: seq<nat>)
    | Table(slots: seq<Value>, nodes: seq<Slot>, meta: nat, weakKey: bool, weakVal: bool, gen: nat)
    | LuaClosure(upvals: seq<nat>)
    | HostClosure(vals: seq<Value>)
    | Userdata(meta: nat, env: nat)
    | Thread(id: nat)
    | ClosedUpval(v: Value)
    | OpenUpval(owner: nat, idx: nat)

  /** What the runtime keeps for a thread outside the arena: its stack up to the top, its open
      upvalues by stack index, a coroutine's body and the values it is transferring. */
  datatype ThreadRecord = ThreadRecord(ref: nat, stack: seq<Value>, open: map<nat, nat>, fn: Value, xfer: seq<Value>,
                                       dead: bool)

  type Heap = map<nat, Obj>
  type Threads = map<nat, ThreadRecord>
  type Graph = map<nat, set<nat>>

  /** The main thread, which has a record but no object. */
  const MAIN: nat := 0

  function RefsIn(vs: seq<Value>): set<nat> {
    set v | v in vs && v.Ref? :: v.ref
  }

  function KeyRefs(nodes: seq<Slot>): set<nat> {
    set s | s in nodes && s.key.Ref? :: s.key.ref
  }

  function ValRefs(nodes: seq<Slot>): set<nat> {
    set s | s in nodes && s.val.Ref? :: s.val.ref
  }

  /** An open upvalue's value: its owner's stack slot. */
  function OpenValue(ts: Threads, owner: nat, idx: nat): Value {
    if owner in ts && idx < |ts[owner].stack| then ts[owner].stack[idx] else Nil
  }

  /** The value an upvalue object stands for. */
  function UpvalValue(ts: Threads, o: Obj): Value {
    if o.ClosedUpval? then o.v else if o.OpenUpval? then OpenValue(ts, o.owner, o.idx) else Nil
  }

  /** What is kept alive by a thread that is reached. */
  function ThreadRefs(t: ThreadRecord): set<nat> {
    if t.dead then {} else RefsIn(t.stack) + t.open.Values + RefsIn([t.fn]) + RefsIn(t.xfer)
  }

  /** What an object holds, weak sides left out. */
  function RefsHeld(ts: Threads, o: Obj): set<nat> {
    match o
    case Str(_) => {}
    case Table(slots, nodes, meta, wk, wv, _) =>
      (if wv then {} else RefsIn(slots) + ValRefs(nodes)) + (if wk then {} else KeyRefs(nodes)) + {meta}
    case LuaClosure(upvals) => set u | u in upvals
    case HostClosure(vals) => RefsIn(vals)
    case Userdata(meta, env) => {meta, env}
    case Thread(id) => if id in ts then ThreadRefs(ts[id]) else {}
    case ClosedUpval(v) => RefsIn([v])
    case OpenUpval(owner, idx) => RefsIn([OpenValue(ts, owner, idx)])
  }

  /** The references marking follows from an object. */
  function Kids(ts: Threads, o: Obj): set<nat> {
    RefsHeld(ts, o) - {0}
  }

  /** The weak sides of a table. */
  function WeakRefs(o: Obj): set<nat> {
    if !o.Table? then {}
    else (if o.weakVal then RefsIn(o.slots) + ValRefs(o.nodes) else {}) + (if o.weakKey then KeyRefs(o.nodes) else {})
  }

  function IsWeak(o: Obj): bool {
    o.Table? && (o.weakKey || o.weakVal)
  }

  ghost function Edges(h: Heap, ts: Threads): Graph {
    map r | r in h :: Kids(ts, h[r])
  }

  // ---- reachability ----

  ghost predicate Path(g: Graph, roots: set<nat>, p: seq<nat>) {
    && |p| > 0 && p[0] in roots
    && (forall i :: 0 <= i < |p| ==> p[i] in g)
    && (forall i :: 0 < i < |p| ==> p[i] in g[p[i - 1]])
  }

  /** Some chain of references leads from a root to r. */
  ghost predicate Reachable(g: Graph, roots: set<nat>, r: nat) {
    exists p :: Path(g, roots, p) && p[|p| - 1] == r
  }

  lemma RootReachable(g: Graph, roots: set<nat>, r: nat)
    requires r in roots && r in g
    ensures Reachable(g, roots, r)
  {
    assert Path(g, roots, [r]) && [r][0] == r;
  }

  lemma KidReachable(g: Graph, roots: set<nat>, r: nat, k: nat)
    requires Reachable(g, roots, r) && r in g && k in g[r] && k in g
    ensures Reachable(g, roots, k)
  {
    var p :| Path(g, roots, p) && p[|p| - 1] == r;
    var q := p + [k];
    assert Path(g, roots, q) && q[|q| - 1] == k;
  }

  /** A set that holds the roots and is closed under references holds everything reachable. */
  lemma {:induction false} ClosedHoldsPath(g: Graph, roots: set<nat>, s: set<nat>, p: seq<nat>)
    requires forall r :: r in roots && r in g ==> r in s
    requires forall r, k :: r in s && r in g && k in g[r] && k in g ==> k in s
    requires Path(g, roots, p)
    ensures p[|p| - 1] in s
    decreases |p|
  {
    if |p| > 1 {
      var q := p[..|p| - 1];
      assert Path(g, roots, q);
      ClosedHoldsPath(g, roots, s, q);
    }
  }

  lemma ClosedHoldsReachable(g: Graph, roots: set<nat>, s: set<nat>)
    requires forall r :: r in roots && r in g ==> r in s
    requires forall r, k :: r in s && r in g && k in g[r] && k in g ==> k in s
    ensures forall r :: Reachable(g, roots, r) ==> r in s
  {
    forall r | Reachable(g, roots, r) ensures r in s {
      var p :| Path(g, roots, p) && p[|p| - 1] == r;
      ClosedHoldsPath(g, roots, s, p);
    }
  }

  ghost function Live(g: Graph, roots: set<nat>): set<nat> {
    set r | r in g && Reachable(g, roots, r)
  }

  // ---- what holds of the heap between operations ----

  /** Thread objects and records, open upvalues and their owners' stacks match. */
  ghost predicate ThreadsOk(h: Heap, ts: Threads) {
    && MAIN in ts && ts[MAIN].fn == Nil && ts[MAIN].xfer == []
    && (forall r :: r in h && h[r].Thread? ==> h[r].id != MAIN && h[r].id in ts && ts[h[r].id].ref == r)
    && (forall id :: id in ts && id != MAIN ==> ts[id].ref in h && h[ts[id].ref] == Thread(id))
    && (forall r :: r in h && h[r].OpenUpval? ==> OpenIn(ts, h[r], r))
    && (forall id, i {:trigger i in ts[id].open} :: id in ts && i in ts[id].open ==>
          ts[id].open[i] in h && h[ts[id].open[i]] == OpenUpval(id, i))
    && (forall id :: id in ts && ts[id].dead ==> id != MAIN && ts[id].open == map[])
  }

  ghost predicate OpenIn(ts: Threads, o: Obj, r: nat)
    requires o.OpenUpval?
  {
    o.owner in ts && o.idx in ts[o.owner].open && ts[o.owner].open[o.idx] == r && o.idx < |ts[o.owner].stack|
  }

  /** Every reference, weak ones included, is to an object. */
  ghost predicate NoDangling(h: Heap, ts: Threads) {
    && 0 !in h
    && (forall r :: r in h ==> Kids(ts, h[r]) + WeakRefs(h[r]) <= h.Keys)
    && (forall id :: id in ts ==> ThreadRefs(ts[id]) - {0} <= h.Keys)
  }

  /** What an active thread, running or waiting on the resume chain, roots: its stack, its open
      upvalues and its own object. */
  function ActiveRefs(t: ThreadRecord): set<nat> {
    RefsIn(t.stack) + t.open.Values + {t.ref}
  }

  function RootSet(refs: seq<nat>, values: seq<Value>, active: seq<nat>, ts: Threads): set<nat> {
    (set r | r in refs) + RefsIn(values) + (set id, k | id in active && id in ts && k in ActiveRefs(ts[id]) :: k) - {0}
  }

  predicate RootsOk(h: Heap, refs: seq<nat>, values: seq<Value>, active: seq<nat>, ts: Threads) {
    && RootSet(refs, values, active, ts) <= h.Keys
    && MAIN in active
    && (forall id :: id in active ==> id in ts && !ts[id].dead)
  }

  /** Roots stay allocated when a record's stack and upvalues stay so. */
  lemma RootsChanged(h: Heap, h': Heap, refs: seq<nat>, values: seq<Value>, active: seq<nat>, ts: Threads, id: nat,
                     t: ThreadRecord)
    requires RootsOk(h, refs, values, active, ts) && h.Keys <= h'.Keys && id in ts
    requires RefsIn(t.stack) - {0} <= h'.Keys && t.open.Values - {0} <= h'.Keys && t.ref == ts[id].ref
    requires id in active ==> !t.dead
    ensures RootsOk(h', refs, values, active, ts[id := t])
  {
    var ts' := ts[id := t];
    forall k | k in RootSet(refs, values, active, ts') ensures k in h' {
      if k !in (set r | r in refs) + RefsIn(values) {
        var j :| j in active && j in ts' && k in ActiveRefs(ts'[j]);
        if k !in h { assert k !in ActiveRefs(ts[j]); }
      }
    }
  }

  lemma RootsCovered(refs: seq<nat>, values: seq<Value>, active: seq<nat>, ts: Threads, done: set<nat>)
    requires (set r | r in refs) + RefsIn(values) <= done
    requires forall j :: 0 <= j < |active| && active[j] in ts ==> ActiveRefs(ts[active[j]]) <= done
    ensures RootSet(refs, values, active, ts) <= done
  {
  }

  /** An object that is neither a thread nor an open upvalue, holding only allocated references. */
  predicate PlainOk(h: Heap, ts: Threads, o: Obj) {
    !o.Thread? && !o.OpenUpval? && Kids(ts, o) + WeakRefs(o) <= h.Keys
  }

  /** Adding or overwriting an object keeps the heap in order. */
  lemma PutObject(h: Heap, ts: Threads, r: nat, o: Obj)
    requires ThreadsOk(h, ts) && NoDangling(h, ts) && PlainOk(h[r := o], ts, o) && r != 0
    requires r in h ==> !h[r].Thread? && !h[r].OpenUpval?
    ensures ThreadsOk(h[r := o], ts) && NoDangling(h[r := o], ts)
  {
    hide Kids, WeakRefs, ThreadRefs;
    var h' := h[r := o];
    forall x | x in h' && h'[x].OpenUpval? ensures OpenIn(ts, h'[x], x) {
      assert OpenIn(ts, h[x], x);
    }
  }

  ghost predicate RecordsWithin(h: Heap, ts: Threads) {
    forall id :: id in ts ==> ThreadRefs(ts[id]) - {0} <= h.Keys
  }

  /** An object unchanged while thread records changed. */
  lemma KidsWithin(h: Heap, h': Heap, ts: Threads, ts': Threads, x: nat)
    requires ThreadsOk(h, ts) && NoDangling(h, ts) && x in h && h.Keys <= h'.Keys && RecordsWithin(h', ts')
    requires forall id :: id in ts ==> id in ts' && (!ts[id].dead ==> !ts'[id].dead)
    ensures Kids(ts', h[x]) <= h'.Keys
  {
    hide Kids, ThreadsOk, ThreadRefs, RecordsWithin, WeakRefs;
    if h[x].OpenUpval? {
      OwnerAlive(h, ts, x);
      OwnedWithin(h', ts', h[x]);
    } else if h[x].Thread? {
      ThreadWithin(h', ts', h[x]);
    } else {
      KidsSame(ts, ts', h[x]);
    }
  }

  lemma ThreadWithin(h: Heap, ts: Threads, o: Obj)
    requires o.Thread? && RecordsWithin(h, ts)
    ensures Kids(ts, o) <= h.Keys
  {
  }

  lemma KidsSame(ts: Threads, ts': Threads, o: Obj)
    requires !o.OpenUpval? && !o.Thread?
    ensures Kids(ts', o) == Kids(ts, o)
  {
  }

  lemma OwnerAlive(h: Heap, ts: Threads, x: nat)
    requires ThreadsOk(h, ts) && x in h && h[x].OpenUpval?
    ensures h[x].owner in ts && !ts[h[x].owner].dead
  {
    assert OpenIn(ts, h[x], x);
  }

  lemma OwnedWithin(h: Heap, ts: Threads, o: Obj)
    requires o.OpenUpval? && o.owner in ts && !ts[o.owner].dead && RecordsWithin(h, ts)
    ensures Kids(ts, o) <= h.Keys
  {
    if o.idx < |ts[o.owner].stack| { OpenHeld(h, ts, o); }
  }

  /** Objects other than r unchanged while thread records changed. */
  lemma NoDanglingStep(h: Heap, h': Heap, ts: Threads, ts': Threads, r: nat)
    requires ThreadsOk(h, ts) && NoDangling(h, ts) && h.Keys <= h'.Keys && 0 !in h' && RecordsWithin(h', ts')
    requires forall id :: id in ts ==> id in ts' && (!ts[id].dead ==> !ts'[id].dead)
    requires forall x :: x in h' && x != r ==> x in h && h'[x] == h[x]
    requires r in h' ==> Kids(ts', h'[r]) + WeakRefs(h'[r]) <= h'.Keys
    ensures NoDangling(h', ts')
  {
    forall x | x in h' && x != r ensures Kids(ts', h'[x]) + WeakRefs(h'[x]) <= h'.Keys {
      KidsWithin(h, h', ts, ts', x);
    }
  }

  /** A new coroutine: its object and its record. */
  lemma PutThread(h: Heap, ts: Threads, r: nat, id: nat, fn: Value)
    requires ThreadsOk(h, ts) && NoDangling(h, ts) && r != 0 && r !in h && id !in ts
    requires RefsIn([fn]) <= h.Keys
    ensures var ts' := ts[id := ThreadRecord(r, [], map[], fn, [], false)];
      ThreadsOk(h[r := Thread(id)], ts') && NoDangling(h[r := Thread(id)], ts')
  {
    var h', ts' := h[r := Thread(id)], ts[id := ThreadRecord(r, [], map[], fn, [], false)];
    NewThreadRefs(r, fn);
    assert Kids(ts', Thread(id)) == ThreadRefs(ts'[id]) - {0};
    hide Kids, WeakRefs, ThreadRefs;
    NullFree(h, ts);
    assert NoDangling(h', ts') by {
      hide ThreadsOk;
      NoDanglingStep(h, h', ts, ts', r);
    }
    PutThreadThreads(h, ts, r, id, fn);
  }

  lemma PutThreadThreads(h: Heap, ts: Threads, r: nat, id: nat, fn: Value)
    requires ThreadsOk(h, ts) && r !in h && id !in ts
    ensures ThreadsOk(h[r := Thread(id)], ts[id := ThreadRecord(r, [], map[], fn, [], false)])
  {
    var h', ts' := h[r := Thread(id)], ts[id := ThreadRecord(r, [], map[], fn, [], false)];
    forall x | x in h' && h'[x].OpenUpval? ensures OpenIn(ts', h'[x], x) {
      assert OpenIn(ts, h[x], x);
    }
  }

  lemma NewThreadRefs(r: nat, fn: Value)
    ensures ThreadRefs(ThreadRecord(r, [], map[], fn, [], false)) == RefsIn([fn])
  {
  }

  /** A thread's stack and transfer values change; its open upvalues stay below the top. */
  lemma PutStack(h: Heap, ts: Threads, id: nat, stack: seq<Value>, xfer: seq<Value>)
    requires ThreadsOk(h, ts) && NoDangling(h, ts) && id in ts
    requires RefsIn(stack) + RefsIn(xfer) <= h.Keys && (id == MAIN ==> xfer == [])
    requires forall i :: i in ts[id].open ==> i < |stack|
    ensures var ts' := ts[id := ts[id].(stack := stack, xfer := xfer)]; ThreadsOk(h, ts') && NoDangling(h, ts')
  {
    var ts' := ts[id := ts[id].(stack := stack, xfer := xfer)];
    assert ThreadRefs(ts'[id]) <= ThreadRefs(ts[id]) + RefsIn(stack) + RefsIn(xfer);
    hide ThreadRefs, Kids, WeakRefs, RefsIn;
    NullFree(h, ts);
    assert NoDangling(h, ts') by {
      hide ThreadsOk;
      NoDanglingStep(h, h, ts, ts', 0);
    }
    PutStackThreads(h, ts, id, stack, xfer);
  }

  lemma PutStackThreads(h: Heap, ts: Threads, id: nat, stack: seq<Value>, xfer: seq<Value>)
    requires ThreadsOk(h, ts) && id in ts && (id == MAIN ==> xfer == [])
    requires forall i :: i in ts[id].open ==> i < |stack|
    ensures ThreadsOk(h, ts[id := ts[id].(stack := stack, xfer := xfer)])
  {
    var ts' := ts[id := ts[id].(stack := stack, xfer := xfer)];
    forall x | x in h && h[x].OpenUpval? ensures OpenIn(ts', h[x], x) {
      assert OpenIn(ts, h[x], x);
    }
    forall t, j {:trigger j in ts'[t].open} | t in ts' && j in ts'[t].open
      ensures ts'[t].open[j] in h && h[ts'[t].open[j]] == OpenUpval(t, j)
    {
      assert j in ts[t].open;
    }
  }

  /** A new open upvalue for a stack slot below the top. */
  lemma PutUpval(h: Heap, ts: Threads, r: nat, id: nat, i: nat)
    requires ThreadsOk(h, ts) && NoDangling(h, ts) && r != 0 && r !in h
    requires id in ts && !ts[id].dead && i !in ts[id].open && i < |ts[id].stack|
    ensures var ts' := ts[id := ts[id].(open := ts[id].open[i := r])];
      ThreadsOk(h[r := OpenUpval(id, i)], ts') && NoDangling(h[r := OpenUpval(id, i)], ts')
  {
    var h', ts' := h[r := OpenUpval(id, i)], ts[id := ts[id].(open := ts[id].open[i := r])];
    UpvalRefs(h, ts, r, id, i);
    hide ThreadRefs, Kids, WeakRefs;
    NullFree(h, ts);
    assert NoDangling(h', ts') by {
      hide ThreadsOk;
      NoDanglingStep(h, h', ts, ts', r);
    }
    PutUpvalThreads(h, ts, r, id, i);
  }

  lemma UpvalRefs(h: Heap, ts: Threads, r: nat, id: nat, i: nat)
    requires NoDangling(h, ts) && id in ts && !ts[id].dead && i < |ts[id].stack|
    ensures ThreadRefs(ts[id].(open := ts[id].open[i := r])) <= ThreadRefs(ts[id]) + {r}
    ensures var ts' := ts[id := ts[id].(open := ts[id].open[i := r])];
      Kids(ts', OpenUpval(id, i)) + WeakRefs(OpenUpval(id, i)) <= h.Keys
  {
    OpenHeld(h, ts, OpenUpval(id, i));
    assert RefsIn(ts[id].stack) <= ThreadRefs(ts[id]);
  }

  lemma PutUpvalThreads(h: Heap, ts: Threads, r: nat, id: nat, i: nat)
    requires ThreadsOk(h, ts) && r !in h
    requires id in ts && !ts[id].dead && i !in ts[id].open && i < |ts[id].stack|
    ensures ThreadsOk(h[r := OpenUpval(id, i)], ts[id := ts[id].(open := ts[id].open[i := r])])
  {
    var h', ts' := h[r := OpenUpval(id, i)], ts[id := ts[id].(open := ts[id].open[i := r])];
    forall x | x in h' && h'[x].OpenUpval? ensures OpenIn(ts', h'[x], x) {
      if x != r { assert OpenIn(ts, h[x], x); }
    }
    forall t, j {:trigger j in ts'[t].open} | t in ts' && j in ts'[t].open
      ensures ts'[t].open[j] in h' && h'[ts'[t].open[j]] == OpenUpval(t, j)
    {
      assert j in ts[t].open || (t == id && j == i);
    }
  }

  /** A thread's record once its upvalues from a level on are closed. */
  function Trimmed(t: ThreadRecord, level: nat): ThreadRecord {
    t.(open := map i | i in t.open && i < level :: t.open[i])
  }

  lemma CloseOk(h: Heap, ts: Threads, id: nat, level: nat)
    requires ThreadsOk(h, ts) && NoDangling(h, ts) && id in ts
    ensures var ts' := ts[id := Trimmed(ts[id], level)];
      ThreadsOk(ClosedFrom(h, ts, {id}, level), ts') && NoDangling(ClosedFrom(h, ts, {id}, level), ts')
  {
    CloseThreads(h, ts, id, level);
    var h', ts' := ClosedFrom(h, ts, {id}, level), ts[id := Trimmed(ts[id], level)];
    assert ThreadRefs(ts'[id]) <= ThreadRefs(ts[id]);
    assert NoDangling(h, ts') by {
      hide ThreadsOk, Kids, WeakRefs;
      NullFree(h, ts);
      NoDanglingStep(h, h, ts, ts', 0);
    }
    forall x | x in h ensures Kids(ts', h'[x]) == Kids(ts', h[x]) && WeakRefs(h'[x]) == WeakRefs(h[x]) {
      ClosedKids(h, ts, id, level, x);
    }
    hide ThreadsOk, Kids, WeakRefs, ThreadRefs;
  }

  lemma ClosedKids(h: Heap, ts: Threads, id: nat, level: nat, x: nat)
    requires ThreadsOk(h, ts) && id in ts && x in h
    ensures var h', ts' := ClosedFrom(h, ts, {id}, level), ts[id := Trimmed(ts[id], level)];
      Kids(ts', h'[x]) == Kids(ts', h[x]) && WeakRefs(h'[x]) == WeakRefs(h[x])
  {
    if h[x].OpenUpval? { assert OpenIn(ts, h[x], x); }
  }

  lemma CloseThreads(h: Heap, ts: Threads, id: nat, level: nat)
    requires ThreadsOk(h, ts) && id in ts
    ensures ThreadsOk(ClosedFrom(h, ts, {id}, level), ts[id := Trimmed(ts[id], level)])
  {
    var h', ts' := ClosedFrom(h, ts, {id}, level), ts[id := Trimmed(ts[id], level)];
    forall x | x in h' && h'[x].OpenUpval? ensures OpenIn(ts', h'[x], x) {
      assert OpenIn(ts, h[x], x);
    }
    forall t, j {:trigger j in ts'[t].open} | t in ts' && j in ts'[t].open
      ensures ts'[t].open[j] in h' && h'[ts'[t].open[j]] == OpenUpval(t, j)
    {
      assert j in ts[t].open;
    }
    if ts[id].dead { assert ts'[id].open == map[]; }
  }

  lemma OpenHeld(h: Heap, ts: Threads, o: Obj)
    requires o.OpenUpval? && o.owner in ts && o.idx < |ts[o.owner].stack|
    ensures Kids(ts, o) <= RefsIn(ts[o.owner].stack)
  {
    assert ts[o.owner].stack[o.idx] in ts[o.owner].stack;
  }

  lemma NullFree(h: Heap, ts: Threads)
    requires NoDangling(h, ts)
    ensures 0 !in h
  {
  }

  /** One thread's open upvalues, as ThreadsOk has them. */
  ghost predicate OwnsUpvals(h: Heap, ts: Threads, id: nat) {
    && id in ts
    && (forall i {:trigger i in ts[id].open} :: i in ts[id].open ==>
          ts[id].open[i] in h && h[ts[id].open[i]] == OpenUpval(id, i))
    && (forall r :: r in h && h[r].OpenUpval? && h[r].owner == id ==> OpenIn(ts, h[r], r))
  }

  /** The upvalues of threads `ids` at or above a stack level, closed over their values. */
  ghost function ClosedFrom(h: Heap, ts: Threads, ids: set<nat>, level: nat): Heap {
    map r | r in h ::
      if h[r].OpenUpval? && h[r].owner in ids && h[r].idx >= level then ClosedUpval(OpenValue(ts, h[r].owner, h[r].idx))
      else h[r]
  }

  /** A thread's upvalues of the slots in `done` closed. */
  ghost function ClosedAmong(h: Heap, ts: Threads, id: nat, done: set<nat>): Heap {
    map r | r in h ::
      if h[r].OpenUpval? && h[r].owner == id && h[r].idx in done then ClosedUpval(OpenValue(ts, id, h[r].idx)) else h[r]
  }

  lemma ClosesOne(h: Heap, ts: Threads, id: nat, done: set<nat>, i: nat)
    requires OwnsUpvals(h, ts, id) && i in ts[id].open && i !in done
    ensures i < |ts[id].stack|
    ensures ClosedAmong(h, ts, id, done)[ts[id].open[i] := ClosedUpval(ts[id].stack[i])] ==
      ClosedAmong(h, ts, id, done + {i})
  {
    assert OpenIn(ts, h[ts[id].open[i]], ts[id].open[i]);
  }

  lemma ClosedBounds(h: Heap, ts: Threads, id: nat, level: nat, all: set<nat>)
    requires OwnsUpvals(h, ts, id) && all == set i | i in ts[id].open && i >= level
    ensures ClosedAmong(h, ts, id, all - all) == h
    ensures ClosedAmong(h, ts, id, all) == ClosedFrom(h, ts, {id}, level)
  {
    assert all - all == {};
    forall r | r in h && h[r].OpenUpval? && h[r].owner == id ensures OpenIn(ts, h[r], r) {
    }
  }

  /** The record of a coroutine that died: nothing of it is kept alive any more. */
  function Deceased(t: ThreadRecord): ThreadRecord {
    t.(dead := true, xfer := [])
  }

  /** A coroutine without open upvalues dies. */
  lemma PutDead(h: Heap, ts: Threads, id: nat)
    requires ThreadsOk(h, ts) && NoDangling(h, ts) && id in ts && id != MAIN && ts[id].open == map[]
    ensures ThreadsOk(h, ts[id := Deceased(ts[id])]) && NoDangling(h, ts[id := Deceased(ts[id])])
  {
    var ts' := ts[id := Deceased(ts[id])];
    PutDeadThreads(h, ts, id);
    hide WeakRefs, Kids, NoDangling;
    forall x | x in h ensures Kids(ts', h[x]) <= Kids(ts, h[x]) {
      DeadKids(h, ts, id, h[x], x);
    }
    assert ThreadRefs(ts'[id]) == {};
    FewerRefs(h, ts, ts');
  }

  /** Records that keep less alive leave nothing dangling. */
  lemma FewerRefs(h: Heap, ts: Threads, ts': Threads)
    requires NoDangling(h, ts) && ts'.Keys == ts.Keys
    requires forall x :: x in h ==> Kids(ts', h[x]) <= Kids(ts, h[x])
    requires forall id :: id in ts ==> ThreadRefs(ts'[id]) <= ThreadRefs(ts[id])
    ensures NoDangling(h, ts')
  {
    hide Kids, WeakRefs, ThreadRefs;
  }

  lemma PutDeadThreads(h: Heap, ts: Threads, id: nat)
    requires ThreadsOk(h, ts) && id in ts && id != MAIN && ts[id].open == map[]
    ensures ThreadsOk(h, ts[id := Deceased(ts[id])])
  {
    var ts' := ts[id := Deceased(ts[id])];
    forall x | x in h && h[x].OpenUpval? ensures OpenIn(ts', h[x], x) {
      assert OpenIn(ts, h[x], x);
    }
    forall t, j {:trigger j in ts'[t].open} | t in ts' && j in ts'[t].open
      ensures ts'[t].open[j] in h && h[ts'[t].open[j]] == OpenUpval(t, j)
    {
      assert j in ts[t].open;
    }
  }

  lemma DeadKids(h: Heap, ts: Threads, id: nat, o: Obj, x: nat)
    requires ThreadsOk(h, ts) && id in ts && x in h && o == h[x]
    ensures Kids(ts[id := Deceased(ts[id])], o) <= Kids(ts, o)
  {
    var ts' := ts[id := Deceased(ts[id])];
    if o.OpenUpval? {
      assert OpenValue(ts', o.owner, o.idx) == OpenValue(ts, o.owner, o.idx);
    } else if o.Thread? {
      assert ThreadRefs(ts'[id]) == {};
    } else {
      KidsSame(ts, ts', o);
    }
    hide ThreadsOk;
  }

  // ---- what a collection leaves ----

  /** A value on the weak side of a table that did not survive. */
  predicate Died(v: Value, live: set<nat>) {
    v.Ref? && v.ref !in live
  }

  predicate SlotDied(s: Slot, wk: bool, wv: bool, live: set<nat>) {
    (wk && Died(s.key, live)) || (wv && Died(s.val, live))
  }

  function ClearSlot(s: Slot, wk: bool, wv: bool, live: set<nat>): Slot {
    if SlotDied(s, wk, wv, live) then Slot(Nil, Nil, s.next) else s
  }

  /** A weak table without its dead entries; chain links stay, the generation moves if a node was
      cleared. */
  ghost function ClearTable(o: Obj, live: set<nat>): (r: Obj)
    requires o.Table?
    ensures r.Table?
  {
    var any := exists i :: 0 <= i < |o.nodes| && SlotDied(o.nodes[i], o.weakKey, o.weakVal, live);
    Table(seq(|o.slots|, i requires 0 <= i < |o.slots| =>
                if o.weakVal && Died(o.slots[i], live) then Nil else o.slots[i]),
          seq(|o.nodes|, i requires 0 <= i < |o.nodes| => ClearSlot(o.nodes[i], o.weakKey, o.weakVal, live)),
          o.meta, o.weakKey, o.weakVal, if any then o.gen + 1 else o.gen)
  }

  /** An open upvalue whose owner went away keeps its value. */
  ghost function CloseOrphan(ts: Threads, o: Obj, live: set<nat>): Obj {
    if o.OpenUpval? && o.owner in ts && o.owner != MAIN && ts[o.owner].ref !in live
    then ClosedUpval(OpenValue(ts, o.owner, o.idx)) else o
  }

  /** What a survivor becomes. */
  ghost function Survivor(ts: Threads, o: Obj, live: set<nat>): Obj {
    if IsWeak(o) then ClearTable(o, live) else CloseOrphan(ts, o, live)
  }

  ghost function SurvivingHeap(h: Heap, ts: Threads, live: set<nat>): Heap {
    map r | r in h && r in live :: Survivor(ts, h[r], live)
  }

  ghost function SurvivingThreads(ts: Threads, live: set<nat>): Threads {
    map id | id in ts && (id == MAIN || ts[id].ref in live) :: ts[id]
  }

  /** A survivor holds what it held, except through entries that were cleared. */
  lemma SurvivorKids(h: Heap, ts: Threads, live: set<nat>, r: nat)
    requires ThreadsOk(h, ts) && r in h && r in live && live <= h.Keys
    requires Kids(ts, h[r]) <= live
    ensures Kids(SurvivingThreads(ts, live), Survivor(ts, h[r], live)) + WeakRefs(Survivor(ts, h[r], live)) <= live
    ensures UpvalValue(SurvivingThreads(ts, live), Survivor(ts, h[r], live)) == UpvalValue(ts, h[r])
  {
    var o, o' := h[r], Survivor(ts, h[r], live);
    if IsWeak(o) {
      ClearedRefs(o, live);
    } else if o.OpenUpval? {
      assert OpenIn(ts, o, r);
    }
  }

  lemma ClearedRefs(o: Obj, live: set<nat>)
    requires o.Table?
    ensures WeakRefs(ClearTable(o, live)) <= live
    ensures Kids(map[], ClearTable(o, live)) <= Kids(map[], o)
  {
    var o' := ClearTable(o, live);
    forall v | v in o'.slots ensures v in o.slots + [Nil] && (o.weakVal ==> !Died(v, live)) {
      var i :| 0 <= i < |o'.slots| && o'.slots[i] == v;
      assert o.slots[i] in o.slots;
    }
    forall s | s in o'.nodes
      ensures (s in o.nodes || s == Slot(Nil, Nil, s.next)) && !SlotDied(s, o.weakKey, o.weakVal, live)
    {
      var i :| 0 <= i < |o'.nodes| && o'.nodes[i] == s;
      assert o.nodes[i] in o.nodes;
    }
  }

  /** After a collection no survivor, thread or weak entry refers to a freed object. */
  lemma CollectedOk(h: Heap, ts: Threads, live: set<nat>)
    requires ThreadsOk(h, ts) && NoDangling(h, ts) && live <= h.Keys
    requires forall r :: r in live ==> Kids(ts, h[r]) <= live
    requires ThreadRefs(ts[MAIN]) - {0} <= live
    ensures ThreadsOk(SurvivingHeap(h, ts, live), SurvivingThreads(ts, live))
    ensures NoDangling(SurvivingHeap(h, ts, live), SurvivingThreads(ts, live))
  {
    hide Kids, ThreadRefs, WeakRefs, Survivor, ThreadsOk;
    var h', ts' := SurvivingHeap(h, ts, live), SurvivingThreads(ts, live);
    assert h'.Keys == live;
    forall r | r in h' ensures Kids(ts', h'[r]) + WeakRefs(h'[r]) <= h'.Keys {
      SurvivorKids(h, ts, live, r);
    }
    MainThere(h, ts);
    forall id | id in ts' ensures ThreadRefs(ts'[id]) - {0} <= h'.Keys {
      KeptThread(h, ts, live, id);
    }
    CollectedThreads(h, ts, live);
  }

  lemma MainThere(h: Heap, ts: Threads)
    requires ThreadsOk(h, ts)
    ensures MAIN in ts
  {
  }

  /** A thread that stays keeps its open upvalues. */
  lemma OpenKept(h: Heap, ts: Threads, live: set<nat>, id: nat, i: nat)
    requires ThreadsOk(h, ts) && 0 !in h && id in ts && i in ts[id].open
    requires ThreadRefs(ts[id]) - {0} <= live
    ensures var u := ts[id].open[i]; u in live && u in h && h[u] == OpenUpval(id, i)
  {
    assert i in ts[id].open && ts[id].open[i] in ts[id].open.Values;
  }

  lemma KeptThread(h: Heap, ts: Threads, live: set<nat>, id: nat)
    requires ThreadsOk(h, ts) && id in ts && (id == MAIN || ts[id].ref in live)
    requires forall r :: r in live && r in h ==> Kids(ts, h[r]) <= live
    requires ThreadRefs(ts[MAIN]) - {0} <= live
    ensures ThreadRefs(ts[id]) - {0} <= live
    ensures id != MAIN ==> ts[id].ref in h && h[ts[id].ref] == Thread(id)
  {
    if id != MAIN { assert Kids(ts, Thread(id)) == ThreadRefs(ts[id]) - {0}; }
  }

  lemma CollectedThreads(h: Heap, ts: Threads, live: set<nat>)
    requires ThreadsOk(h, ts) && 0 !in h && live <= h.Keys
    requires forall r :: r in live ==> Kids(ts, h[r]) <= live
    requires ThreadRefs(ts[MAIN]) - {0} <= live
    ensures ThreadsOk(SurvivingHeap(h, ts, live), SurvivingThreads(ts, live))
  {
    hide Kids, ThreadRefs, ClearTable, OpenValue;
    var h', ts' := SurvivingHeap(h, ts, live), SurvivingThreads(ts, live);
    forall r | r in h' && h'[r].OpenUpval? ensures OpenIn(ts', h'[r], r) {
      assert h'[r] == h[r] && OpenIn(ts, h[r], r);
    }
    forall r | r in h' && h'[r].Thread? ensures h'[r].id != MAIN && h'[r].id in ts' && ts'[h'[r].id].ref == r {
      assert h[r] == h'[r];
    }
    forall id | id in ts' && id != MAIN ensures ts'[id].ref in h' && h'[ts'[id].ref] == Thread(id) {
      KeptThread(h, ts, live, id);
    }
    forall id, i {:trigger i in ts'[id].open} | id in ts' && i in ts'[id].open
      ensures ts'[id].open[i] in h' && h'[ts'[id].open[i]] == OpenUpval(id, i)
    {
      KeptThread(h, ts, live, id);
      OpenKept(h, ts, live, id, i);
    }
  }

  ghost function DeadThreads(ts: Threads, live: set<nat>): set<nat> {
    set id | id in ts && id != MAIN && ts[id].ref !in live
  }

  /** The three steps after marking come to `SurvivingHeap`. */
  lemma CollectComposes(h: Heap, ts: Threads, live: set<nat>, h1: Heap, h2: Heap, h3: Heap)
    requires live <= h.Keys && ThreadsOk(h, ts)
    requires h1 == ClosedFrom(h, ts, DeadThreads(ts, live), 0)
    requires h2 == map r | r in h1 :: if r in live && IsWeak(h1[r]) then ClearTable(h1[r], live) else h1[r]
    requires h3 == map r | r in h2 && r in live :: h2[r]
    ensures h3 == SurvivingHeap(h, ts, live)
  {
    forall r | r in h && r in live ensures h3[r] == Survivor(ts, h[r], live) {
      if h[r].OpenUpval? { assert OpenIn(ts, h[r], r); }
    }
  }

  lemma StillOwns(h: Heap, ts: Threads, gone: set<nat>, id: nat)
    requires ThreadsOk(h, ts) && id in ts && id !in gone && id != MAIN
    ensures OwnsUpvals(ClosedFrom(h, ts, gone, 0), ts - gone, id)
    ensures ts[id].ref in h
  {
    var h', ts' := ClosedFrom(h, ts, gone, 0), ts - gone;
    forall r | r in h' && h'[r].OpenUpval? && h'[r].owner == id ensures OpenIn(ts', h'[r], r) {
      assert OpenIn(ts, h[r], r);
    }
  }

  lemma ClosedNone(h: Heap, ts: Threads)
    ensures ClosedFrom(h, ts, {}, 0) == h && ts - {} == ts
  {
  }

  lemma ClosedMore(h: Heap, ts: Threads, gone: set<nat>, id: nat)
    requires id in ts && id !in gone
    ensures ClosedFrom(ClosedFrom(h, ts, gone, 0), ts - gone, {id}, 0) == ClosedFrom(h, ts, gone + {id}, 0)
  {
  }
}
