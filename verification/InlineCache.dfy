/** Inline caches over table accesses (internal/crescent/ic.go). */
module InlineCache {
  import opened Values
  import opened RawTable
  import opened TableStore
  import opened AccessChains

  datatype HitKind = NoHit | ArrayHit | NodeHit

  datatype Loc = NowhereFound | InArraySlot(i: nat) | InNode(i: nat)

  /** The cache slot of one pc. `snap` is what the table looked like when the slot was filled. */
  class CacheSlot {
    var kind: HitKind
    var tableRef: nat
    var shape: nat
    var index: nat
    var refill: nat
    ghost var snap: Shape

    constructor ()
      ensures kind == NoHit
    {
      kind, tableRef, shape, index, refill := NoHit, 0, 0, 0, 0;
      snap := Shape(0, [], 0);
    }

    /** A filled slot was filled from a table that still exists and has only moved on since. */
    ghost predicate Fits(w: Tables)
      reads this, w, w.all.Values, w.Footprint()
    {
      kind != NoHit ==>
        && tableRef in w.all
        && KeepsSlots(snap, w.all[tableRef].Snapshot())
        && shape == snap.gen
        && (kind == NodeHit ==> index < |snap.ns|)
    }
  }

  /** A slot survives any change of the tables that keeps slots while generations stand. */
  lemma StillFits(w: Tables, slot: CacheSlot, before: map<nat, Shape>)
    requires slot.kind != NoHit ==>
      && slot.tableRef in before
      && KeepsSlots(slot.snap, before[slot.tableRef])
      && slot.shape == slot.snap.gen
      && (slot.kind == NodeHit ==> slot.index < |slot.snap.ns|)
    requires AllKeepSlots(before, w.Shapes())
    ensures slot.Fits(w)
  {
    hide TableOk;
    if slot.kind != NoHit {
      KeepsSlotsTransitive(slot.snap, before[slot.tableRef], w.Shapes()[slot.tableRef]);
    }
  }

  /** The key has its place there, with a value or without. */
  ghost predicate SitsAt(t: RawTable, key: Value, loc: Loc)
    reads t, t.arr, t.nodes
  {
    match loc
    case NowhereFound => false
    case InArraySlot(i) => i < t.arr.Length && NormKey(key) == Int(i + 1)
    case InNode(i) => i < t.nodes.Length && t.nodes[i].key == NormKey(key) && !NormKey(key).Nil?
  }

  /** The slot knows where this key of this table is. */
  ghost predicate Warm(w: Tables, slot: CacheSlot, ref: nat, key: Value)
    reads slot, w, w.all.Values, w.Footprint()
  {
    && ref in w.all && slot.tableRef == ref && slot.shape == w.all[ref].gen
    && (slot.kind == ArrayHit ==> SitsAt(w.all[ref], key, InArraySlot(slot.index)))
    && (slot.kind == NodeHit ==> SitsAt(w.all[ref], key, InNode(slot.index)))
    && slot.kind != NoHit
  }

  /** A full lookup that also reports where the key lives. */
  method RawGetWithLoc(t: RawTable, key: Value) returns (v: Value, loc: Loc)
    requires t.Valid()
    ensures v == Lookup(t.m, key)
    ensures if loc.NowhereFound? then v.Nil? else SitsAt(t, key, loc)
  {
    if key.Nil? {
      t.NilAbsent();
      return Nil, NowhereFound;
    }
    var k := NormKey(key);
    if InArray(k, t.arr.Length) {
      t.ArrayMeaning(k.n - 1);
      return t.arr[k.n - 1], InArraySlot(k.n - 1);
    }
    var i := t.FindSlot(k);
    if i >= 0 {
      return t.nodes[i].val, InNode(i);
    }
    return Nil, NowhereFound;
  }

  method FieldOf(w: Tables, mt: nat, name: Value) returns (h: Value)
    requires w.Valid() && (mt == 0 || mt in w.all)
    ensures h == FieldIn(w.Abstract(), mt, name)
    ensures Resolves(w.all.Keys, h)
    ensures w.Valid() && w.Footprint() == old(w.Footprint())
    ensures w.Abstract() == old(w.Abstract()) && w.Shapes() == old(w.Shapes())
  {
    hide TableOk, Closed, Tables.Separate;
    if mt == 0 {
      return Nil;
    }
    w.Peek(mt);
    h := w.all[mt].RawGet(name);
  }

  method MetaFieldOfValue(w: Tables, v: Value, name: Value) returns (h: Value)
    requires w.Valid() && Resolves(w.all.Keys, v)
    ensures h == FieldIn(w.Abstract(), MetaOfValue(w.Abstract(), v), name)
    ensures Resolves(w.all.Keys, h)
    ensures w.Valid() && w.Footprint() == old(w.Footprint())
    ensures w.Abstract() == old(w.Abstract()) && w.Shapes() == old(w.Shapes())
  {
    hide Tables.Valid, Tables.Footprint, Tables.Shapes, FieldIn;
    w.PeekShared();
    var mt := 0;
    if IsTable(v) {
      w.Peek(v.ref);
      mt := w.all[v.ref].meta;
    } else if v.Ref? && v.kind == StringRef {
      mt := w.stringMeta;
    } else if v.Ref? && v.kind == UserdataRef && v.ref in w.userdataMeta {
      mt := w.userdataMeta[v.ref];
    }
    h := FieldOf(w, mt, name);
  }

  method GetIn(w: Tables, ref: nat, key: Value) returns (v: Value)
    requires w.Valid() && ref in w.all
    ensures v == Lookup(ContentOf(w.Abstract(), ref), key)
    ensures w.Valid() && w.Footprint() == old(w.Footprint())
    ensures w.Abstract() == old(w.Abstract()) && w.Shapes() == old(w.Shapes())
  {
    hide TableOk, Closed, Tables.Separate;
    w.Peek(ref);
    v := w.all[ref].RawGet(key);
  }

  datatype Step<R> = Ends(r: R) | Follow(h: Value)

  /** One link of the `__index` chain. */
  method IndexStep(w: Tables, o: Value, key: Value) returns (r: Step<Access>)
    requires w.Valid() && Resolves(w.all.Keys, o)
    ensures r.Follow? ==> Resolves(w.all.Keys, r.h)
    ensures forall depth: nat :: depth < MAX_CHAIN ==>
      IndexFrom(w.Abstract(), o, key, depth) == match r
        case Ends(a) => a
        case Follow(h) => IndexFrom(w.Abstract(), h, key, depth + 1)
  {
    hide Tables.Valid, Tables.Footprint, Tables.Shapes, FieldIn, TableStore.MetaOf, Lookup;
    w.PeekShared();
    var h;
    if IsTable(o) {
      var v := GetIn(w, o.ref, key);
      if !v.Nil? {
        return Ends(Found(v));
      }
      h := MetaFieldOfValue(w, o, w.indexName);
      if h.Nil? {
        return Ends(Found(Nil));
      }
    } else if o.Ref? && o.kind == UserdataRef {
      h := MetaFieldOfValue(w, o, w.indexName);
      if h.Nil? {
        return Ends(GetFails(NotIndexable(o)));
      }
    } else if o.Ref? && o.kind == StringRef && w.stringMeta != 0 {
      h := MetaFieldOfValue(w, o, w.indexName);
      if h.Nil? {
        return Ends(Found(Nil));
      }
    } else if o.Ref? && o.kind == StringRef && w.stringLib != 0 {
      return Follow(Ref(TableRef, w.stringLib));
    } else {
      return Ends(GetFails(NotIndexable(o)));
    }
    if IsFunction(h) {
      return Ends(CallGet(h, o));
    }
    return Follow(h);
  }

  method IndexWithMeta(w: Tables, obj: Value, key: Value) returns (r: Access)
    requires w.Valid() && Resolves(w.all.Keys, obj)
    ensures r == IndexFrom(w.Abstract(), obj, key, 0) && ReadComesTo(w.Abstract(), obj, key, r)
  {
    hide TableOk, Closed, Tables.Separate, FieldIn, TableStore.MetaOf, Lookup, ReadComesTo;
    ReadIsChain(w.Abstract(), obj, key, IndexFrom(w.Abstract(), obj, key, 0));
    var o := obj;
    for depth := 0 to MAX_CHAIN
      invariant Resolves(w.all.Keys, o)
      invariant IndexFrom(w.Abstract(), o, key, depth) == IndexFrom(w.Abstract(), obj, key, 0)
    {
      var step := IndexStep(w, o, key);
      if step.Ends? {
        return step.r;
      }
      o := step.h;
    }
    return GetFails(GetLoop);
  }

  /** One link of the `__newindex` chain; the write itself is left to the caller. */
  method SetStep(w: Tables, o: Value, key: Value) returns (r: Step<Target>)
    requires w.Valid() && Resolves(w.all.Keys, o)
    ensures r.Follow? ==> Resolves(w.all.Keys, r.h)
    ensures r.Ends? && r.r.StoreIn? ==> r.r.ref in w.all
    ensures forall depth: nat :: depth < MAX_CHAIN ==>
      SetFrom(w.Abstract(), o, key, depth) == match r
        case Ends(a) => a
        case Follow(h) => SetFrom(w.Abstract(), h, key, depth + 1)
    ensures w.Valid() && w.Footprint() == old(w.Footprint())
    ensures w.Abstract() == old(w.Abstract()) && w.Shapes() == old(w.Shapes())
  {
    hide Tables.Valid, Tables.Footprint, Tables.Shapes, FieldIn, TableStore.MetaOf, Lookup;
    var h;
    if IsTable(o) {
      var v := GetIn(w, o.ref, key);
      if !v.Nil? {
        return Ends(StoreIn(o.ref));
      }
      if CheckKey(key) != Done {
        return Ends(SetFails(BadKey(CheckKey(key))));
      }
      h := MetaFieldOfValue(w, o, w.newindexName);
      if h.Nil? {
        return Ends(StoreIn(o.ref));
      }
    } else {
      h := MetaFieldOfValue(w, o, w.newindexName);
      if h.Nil? {
        return Ends(SetFails(NotIndexable(o)));
      }
    }
    if IsFunction(h) {
      return Ends(CallSet(h, o));
    }
    return Follow(h);
  }

  method SetIndexWithMeta(w: Tables, obj: Value, key: Value, val: Value) returns (r: Target)
    requires w.Valid() && Resolves(w.all.Keys, obj) && Resolves(w.all.Keys, val)
    modifies w.Footprint()
    ensures w.Valid() && fresh(w.Footprint() - old(w.Footprint()))
    ensures r == SetFrom(old(w.Abstract()), obj, key, 0) && WriteComesTo(old(w.Abstract()), obj, key, r)
    ensures w.Abstract() == if r.StoreIn? then StoreWritten(old(w.Abstract()), r.ref, key, val) else old(w.Abstract())
    ensures if r.StoreIn? then WrittenIn(old(w.Abstract()), r.ref, key, val, w.Abstract())
            else w.Abstract() == old(w.Abstract())
    ensures AllKeepSlots(old(w.Shapes()), w.Shapes())
  {
    hide Tables.Valid, Tables.Shapes, Tables.Abstract, SetFrom, KeepsSlots, AllKeepSlots, StoreWritten;
    hide WriteComesTo, WrittenIn;
    WriteIsChain(w.Abstract(), obj, key, SetFrom(w.Abstract(), obj, key, 0));
    ghost var was := w.Abstract();
    SameShapes(w.Shapes());
    ghost var footprint := w.Footprint();
    r := SetTarget(w, obj, key);
    assert w.Footprint() == footprint;
    if r.StoreIn? {
      label before:
      w.Write(r.ref, key, val);
      assert fresh@before(w.Footprint() - footprint);
      StoreWrittenIs(was, r.ref, key, val);
    } else {
      assert w.Footprint() == footprint;
    }
  }

  method SetTarget(w: Tables, obj: Value, key: Value) returns (r: Target)
    requires w.Valid() && Resolves(w.all.Keys, obj)
    ensures r == SetFrom(w.Abstract(), obj, key, 0)
    ensures r.StoreIn? ==> r.ref in w.all
    ensures w.Valid() && w.Footprint() == old(w.Footprint())
    ensures w.Abstract() == old(w.Abstract()) && w.Shapes() == old(w.Shapes())
  {
    hide Tables.Valid, Tables.Footprint, Tables.Shapes, Tables.Abstract, FieldIn, TableStore.MetaOf, Lookup;
    var o := obj;
    for depth := 0 to MAX_CHAIN
      invariant w.Valid() && w.Footprint() == old(w.Footprint())
      invariant w.Abstract() == old(w.Abstract()) && w.Shapes() == old(w.Shapes())
      invariant Resolves(w.all.Keys, o)
      invariant SetFrom(w.Abstract(), o, key, depth) == SetFrom(w.Abstract(), obj, key, 0)
    {
      var step := SetStep(w, o, key);
      if step.Ends? {
        return step.r;
      }
      o := step.h;
    }
    return SetFails(SetLoop);
  }

  lemma SameShapes(s: map<nat, Shape>)
    ensures AllKeepSlots(s, s)
  {
  }

  // ---- the cached paths ----

  /** Note where a key was found; a slot filled before under another table or generation counts a
      refill, up to 255. */
  method Fill(w: Tables, slot: CacheSlot, ref: nat, ghost key: Value, loc: Loc)
    requires w.Valid() && ref in w.all && slot !in w.Footprint() && SitsAt(w.all[ref], key, loc)
    modifies slot
    ensures slot.Fits(w) && Warm(w, slot, ref, key) && w.Valid() && w.Abstract() == old(w.Abstract())
    ensures slot.refill == old(
      if slot.kind != NoHit && (slot.tableRef != ref || slot.shape != w.all[ref].gen) && slot.refill < 255
      then slot.refill + 1 else slot.refill)
  {
    hide Tables.Valid, Tables.Abstract;
    var t := w.all[ref];
    if slot.kind != NoHit && (slot.tableRef != ref || slot.shape != t.gen) {
      if slot.refill < 255 {
        slot.refill := slot.refill + 1;
      }
    }
    slot.tableRef, slot.shape, slot.index := ref, t.gen, loc.i;
    slot.kind := if loc.InArraySlot? then ArrayHit else NodeHit;
    slot.snap := t.Snapshot();
  }

  /** Where a hit leads: nowhere unless table, generation and key all agree with the slot and the
      value there is not nil. */
  method Hit(w: Tables, slot: CacheSlot, ref: nat, key: Value) returns (v: Value, loc: Loc)
    requires w.Valid() && slot.Fits(w) && ref in w.all
    ensures loc.NowhereFound? <==> v.Nil?
    ensures v == if Warm(w, slot, ref, key) then Lookup(w.all[ref].m, key) else Nil
    ensures loc.InArraySlot? ==> loc.i < w.all[ref].arr.Length && NormKey(key) == Int(loc.i + 1)
    ensures loc.InNode? ==>
      loc.i < w.all[ref].nodes.Length && NormKey(key) == w.all[ref].nodes[loc.i].key && !NormKey(key).Nil?
    ensures w.Valid() && w.Footprint() == old(w.Footprint())
    ensures w.Abstract() == old(w.Abstract()) && w.Shapes() == old(w.Shapes())
  {
    hide TableOk, Closed, Tables.Separate;
    var t := w.all[ref];
    var k := NormKey(key);
    v, loc := Nil, NowhereFound;
    if slot.kind == ArrayHit && slot.tableRef == ref && slot.shape == t.gen {
      if InArray(k, t.arr.Length) && k.n - 1 == slot.index {
        t.ArrayMeaning(slot.index);
        if !t.arr[slot.index].Nil? {
          return t.arr[slot.index], InArraySlot(slot.index);
        }
      }
    } else if slot.kind == NodeHit && slot.tableRef == ref && slot.shape == t.gen {
      t.SlotMeaning(slot.index);
      if KeyEqual(t.nodes[slot.index].key, k) && !t.nodes[slot.index].val.Nil? {
        return t.nodes[slot.index].val, InNode(slot.index);
      }
    }
  }

  /** The cached read gives what the uncached one gives, whatever the slot holds. */
  method IcGet(w: Tables, slot: CacheSlot, obj: Value, key: Value) returns (r: Access)
    requires w.Valid() && slot.Fits(w) && slot !in w.Footprint() && Resolves(w.all.Keys, obj)
    modifies slot
    ensures slot.Fits(w)
    ensures r == IndexFrom(w.Abstract(), obj, key, 0) && ReadComesTo(w.Abstract(), obj, key, r)
    ensures IsTable(obj) && !Lookup(ContentOf(w.Abstract(), obj.ref), key).Nil? ==> Warm(w, slot, obj.ref, key)
  {
    hide TableOk, Closed, Tables.Separate, FieldIn, TableStore.MetaOf, KeepsSlots, ReadComesTo;
    ReadIsChain(w.Abstract(), obj, key, IndexFrom(w.Abstract(), obj, key, 0));
    if !IsTable(obj) {
      r := IndexWithMeta(w, obj, key);
      return;
    }
    w.Peek(obj.ref);
    var v, at := Hit(w, slot, obj.ref, key);
    if !at.NowhereFound? {
      return Found(v);
    }
    var found := LookupAndFill(w, slot, obj.ref, key);
    if !found.Nil? {
      return Found(found);
    }
    r := IndexWithMeta(w, obj, key);
  }

  method LocateIn(w: Tables, ghost slot: CacheSlot, ref: nat, key: Value) returns (v: Value, loc: Loc)
    requires w.Valid() && slot.Fits(w) && slot !in w.Footprint() && ref in w.all
    ensures v == Lookup(ContentOf(w.Abstract(), ref), key)
    ensures if loc.NowhereFound? then v.Nil? else SitsAt(w.all[ref], key, loc)
    ensures slot.Fits(w)
    ensures w.Valid() && w.Footprint() == old(w.Footprint())
    ensures w.Abstract() == old(w.Abstract()) && w.Shapes() == old(w.Shapes())
  {
    hide TableOk, Closed, Tables.Separate;
    w.Peek(ref);
    v, loc := RawGetWithLoc(w.all[ref], key);
  }

  /** The miss path's full lookup; a value found is noted in the slot. */
  method LookupAndFill(w: Tables, slot: CacheSlot, ref: nat, key: Value) returns (v: Value)
    requires w.Valid() && slot.Fits(w) && slot !in w.Footprint() && ref in w.all
    modifies slot
    ensures w.Valid() && slot.Fits(w)
    ensures v == Lookup(ContentOf(w.Abstract(), ref), key)
    ensures if v.Nil? then unchanged(slot) else Warm(w, slot, ref, key)
    ensures w.Abstract() == old(w.Abstract())
  {
    hide Tables.Valid, Tables.Footprint, Tables.Abstract, Tables.Shapes, CacheSlot.Fits, Warm, SitsAt, ContentOf;
    hide Lookup;
    var loc;
    v, loc := LocateIn(w, slot, ref, key);
    if !loc.NowhereFound? && !v.Nil? {
      Fill(w, slot, ref, key, loc);
    }
  }

  /** The cached write: a hit overwrites the value of an existing key in place. */
  method WriteHit(w: Tables, slot: CacheSlot, ref: nat, key: Value, val: Value) returns (done: bool)
    requires w.Valid() && slot.Fits(w) && slot !in w.Footprint() && ref in w.all
    requires Resolves(w.all.Keys, val)
    modifies w.Footprint()
    ensures w.Valid() && w.Footprint() == old(w.Footprint())
    ensures done <==> !val.Nil? && old(Warm(w, slot, ref, key) && !Lookup(w.all[ref].m, key).Nil?)
    ensures w.Abstract() == if done then StoreWritten(old(w.Abstract()), ref, key, val) else old(w.Abstract())
    ensures AllKeepSlots(old(w.Shapes()), w.Shapes())
  {
    hide Tables.Valid, Tables.Footprint, Tables.Shapes, Tables.Abstract, KeepsSlots, AllKeepSlots;
    SameShapes(w.Shapes());
    if val.Nil? {
      return false;
    }
    var v, at := Hit(w, slot, ref, key);
    match at
    case NowhereFound =>
      return false;
    case InArraySlot(i) =>
      w.WriteArraySlot(ref, i, val);
      return true;
    case InNode(i) =>
      w.WriteNode(ref, i, val);
      return true;
  }

  // ---- a history at one pc ----

  /** What can happen to a set of tables as one pc is executed over and over: reads and writes
      through its cache slot, and raw writes, metatable changes, new tables and sweeps of weak tables
      made by anything else. A write may call a handler, which can do all of this itself, at the same
      pc too. */
  datatype Event =
    | Read(obj: Value, key: Value)
    | Assign(obj: Value, key: Value, val: Value, during: seq<Event>, handlerFails: bool)
    | WriteElsewhere(ref: nat, key: Value, val: Value)
    | NewMeta(ref: nat, mt: nat)
    | NewTable(ref: nat, asize: nat, hsize: nat)
    | SweepWeak(ref: nat, weakKey: bool, weakVal: bool, gone: set<nat>)

  datatype Outcome = Got(a: Access) | Put(t: Target)

  /** The history without caches. */
  function RunOne(s: Store, e: Event): (Store, seq<Outcome>)
    decreases e
  {
    match e
    case Read(obj, key) => (s, [Got(IndexFrom(s, obj, key, 0))])
    case Assign(obj, key, val, during, _) =>
      var t := SetFrom(s, obj, key, 0);
      (match t
       case StoreIn(ref) => (StoreWritten(s, ref, key, val), [Put(t)])
       case CallSet(_, _) => var (s', os) := Run(s, during); (s', [Put(t)] + os)
       case SetFails(_) => (s, [Put(t)]))
    case WriteElsewhere(ref, key, val) => (StoreWritten(s, ref, key, val), [])
    case NewMeta(ref, mt) => (s.(meta := s.meta[ref := mt]), [])
    case NewTable(ref, _, _) => (StoreGrown(s, ref), [])
    case SweepWeak(ref, weakKey, weakVal, gone) => (StoreSwept(s, ref, weakKey, weakVal, gone), [])
  }

  function Run(s: Store, es: seq<Event>): (Store, seq<Outcome>)
    decreases es
  {
    if es == [] then (s, [])
    else
      var (s', os) := RunOne(s, es[0]);
      var (s'', os') := Run(s', es[1..]);
      (s'', os + os')
  }

  /** The event takes the tables from s to s', with these outcomes: told without the functions the
      methods follow. */
  ghost predicate Happens(s: Store, e: Event, s': Store, os: seq<Outcome>)
    decreases e
  {
    match e
    case Read(obj, key) => s' == s && |os| == 1 && os[0].Got? && ReadComesTo(s, obj, key, os[0].a)
    case Assign(obj, key, val, during, _) =>
      && |os| > 0 && os[0].Put? && WriteComesTo(s, obj, key, os[0].t)
      && (match os[0].t
          case StoreIn(ref) => WrittenIn(s, ref, key, val, s') && |os| == 1
          case CallSet(_, _) => History(s, during, s', os[1..])
          case SetFails(_) => s' == s && |os| == 1)
    case WriteElsewhere(ref, key, val) => WrittenIn(s, ref, key, val, s') && os == []
    case NewMeta(ref, mt) => s' == s.(meta := s.meta[ref := mt]) && os == []
    case NewTable(ref, _, _) => s' == s.(content := s.content[ref := map[]], meta := s.meta[ref := 0]) && os == []
    case SweepWeak(ref, weakKey, weakVal, gone) => SweptIn(s, ref, weakKey, weakVal, gone, s') && os == []
  }

  /** Event after event. */
  ghost predicate History(s: Store, es: seq<Event>, s': Store, os: seq<Outcome>)
    decreases es
  {
    if es == [] then s' == s && os == []
    else exists mid, n: nat :: n <= |os| && Happens(s, es[0], mid, os[..n]) && History(mid, es[1..], s', os[n..])
  }

  lemma {:induction false} OneHappens(s: Store, e: Event)
    ensures Happens(s, e, RunOne(s, e).0, RunOne(s, e).1)
    decreases e
  {
    hide ReadComesTo, WriteComesTo, WrittenIn, SweptIn, IndexFrom, SetFrom, StoreWritten, StoreSwept;
    if e.Read? {
      ReadIsChain(s, e.obj, e.key, IndexFrom(s, e.obj, e.key, 0));
    } else if e.Assign? {
      AssignHappens(s, e.obj, e.key, e.val, e.during, e.handlerFails);
    } else if e.WriteElsewhere? {
      StoreWrittenIs(s, e.ref, e.key, e.val);
    } else if e.SweepWeak? {
      StoreSweptIs(s, e.ref, e.weakKey, e.weakVal, e.gone);
    }
  }

  lemma {:induction false} AssignHappens(s: Store, obj: Value, key: Value, val: Value, during: seq<Event>, fails: bool)
    ensures var (s', os) := RunOne(s, Assign(obj, key, val, during, fails));
      Happens(s, Assign(obj, key, val, during, fails), s', os)
    decreases Assign(obj, key, val, during, fails), 0
  {
    hide ReadComesTo, WriteComesTo, WrittenIn, SweptIn, IndexFrom, SetFrom, StoreWritten, StoreSwept, Run, History;
    var t := SetFrom(s, obj, key, 0);
    WriteIsChain(s, obj, key, t);
    if t.StoreIn? {
      StoreWrittenIs(s, t.ref, key, val);
    } else if t.CallSet? {
      RunHappens(s, during);
      assert ([Put(t)] + Run(s, during).1)[1..] == Run(s, during).1;
    }
  }

  /** The uncached run of a history, access by access. */
  lemma {:induction false} RunHappens(s: Store, es: seq<Event>)
    ensures History(s, es, Run(s, es).0, Run(s, es).1)
    decreases es
  {
    if es != [] {
      var (mid, first) := RunOne(s, es[0]);
      OneHappens(s, es[0]);
      RunHappens(mid, es[1..]);
      hide RunOne, Happens;
      var (s', os) := Run(s, es);
      assert os[..|first|] == first && os[|first|..] == Run(mid, es[1..]).1;
    }
  }

  /** Every table an event names exists at that moment, and a new one is at an address not in use. */
  predicate EventOk(s: Store, e: Event)
    decreases e
  {
    var refs := s.content.Keys;
    match e
    case Read(obj, _) => Resolves(refs, obj)
    case Assign(obj, key, val, during, _) =>
      && Resolves(refs, obj) && Resolves(refs, val)
      && (SetFrom(s, obj, key, 0).CallSet? ==> HistoryOk(s, during))
    case WriteElsewhere(ref, _, val) => ref in refs && Resolves(refs, val)
    case NewMeta(ref, mt) => ref in refs && (mt == 0 || mt in refs)
    case NewTable(ref, _, hsize) => ref != 0 && ref !in refs && (hsize == 0 || IsPow2(hsize))
    case SweepWeak(ref, _, _, _) => ref in refs
  }

  predicate HistoryOk(s: Store, es: seq<Event>)
    decreases es
  {
    es == [] || (EventOk(s, es[0]) && HistoryOk(RunOne(s, es[0]).0, es[1..]))
  }

  /** After a write through the slow path: note where the key ended up, if anywhere. */
  method Backfill(w: Tables, slot: CacheSlot, ref: nat, key: Value)
    requires w.Valid() && slot.Fits(w) && slot !in w.Footprint() && ref in w.all
    modifies slot
    ensures slot.Fits(w)
    ensures !Lookup(ContentOf(w.Abstract(), ref), key).Nil? ==> Warm(w, slot, ref, key)
  {
    hide Tables.Valid, Tables.Footprint, Tables.Abstract, CacheSlot.Fits, Warm;
    var v, loc := LocateIn(w, slot, ref, key);
    if !loc.NowhereFound? {
      Fill(w, slot, ref, key, loc);
    }
  }

  method OtherWrite(w: Tables, ghost slot: CacheSlot, ref: nat, key: Value, val: Value)
    requires w.Valid() && slot.Fits(w) && slot !in w.Footprint()
    requires ref in w.all && Resolves(w.all.Keys, val)
    modifies w.Footprint()
    ensures w.Valid() && slot.Fits(w) && fresh(w.Footprint() - old(w.Footprint())) && slot !in w.Footprint()
    ensures w.Abstract() == StoreWritten(old(w.Abstract()), ref, key, val)
  {
    hide Tables.Valid, Tables.Abstract, AllKeepSlots, StoreWritten;
    ghost var before := w.Shapes();
    w.Write(ref, key, val);
    StillFits(w, slot, before);
  }

  method OtherMeta(w: Tables, ghost slot: CacheSlot, ref: nat, mt: nat)
    requires w.Valid() && slot.Fits(w) && slot !in w.Footprint() && ref in w.all && (mt == 0 || mt in w.all)
    modifies w.Footprint()
    ensures w.Valid() && slot.Fits(w) && fresh(w.Footprint() - old(w.Footprint())) && slot !in w.Footprint()
    ensures w.Abstract() == old(w.Abstract()).(meta := old(w.Abstract()).meta[ref := mt])
  {
    hide Tables.Valid, Tables.Abstract, AllKeepSlots;
    ghost var before := w.Shapes();
    w.SetMeta(ref, mt);
    StillFits(w, slot, before);
  }

  method OtherTable(w: Tables, ghost slot: CacheSlot, ref: nat, asize: nat, hsize: nat)
    requires w.Valid() && slot.Fits(w) && slot !in w.Footprint()
    requires ref != 0 && ref !in w.all && (hsize == 0 || IsPow2(hsize))
    modifies w
    ensures w.Valid() && slot.Fits(w) && fresh(w.Footprint() - old(w.Footprint())) && slot !in w.Footprint()
    ensures w.Abstract() == StoreGrown(old(w.Abstract()), ref) && old(w.all.Keys) <= w.all.Keys
  {
    hide Tables.Valid, Tables.Abstract, AllKeepSlots, StoreGrown;
    ghost var before := w.Shapes();
    w.Create(ref, asize, hsize);
    StillFits(w, slot, before);
  }

  method OtherSweep(w: Tables, ghost slot: CacheSlot, ref: nat, weakKey: bool, weakVal: bool, gone: set<nat>)
    requires w.Valid() && slot.Fits(w) && slot !in w.Footprint() && ref in w.all
    modifies w.Footprint()
    ensures w.Valid() && slot.Fits(w) && fresh(w.Footprint() - old(w.Footprint())) && slot !in w.Footprint()
    ensures w.Abstract() == StoreSwept(old(w.Abstract()), ref, weakKey, weakVal, gone)
  {
    hide Tables.Valid, Tables.Abstract, AllKeepSlots, StoreSwept;
    ghost var before := w.Shapes();
    w.SweepWeak(ref, weakKey, weakVal, gone);
    StillFits(w, slot, before);
  }

  /** A hit decides the write by itself only where the slow path would store in the same table. */
  method FastWrite(w: Tables, slot: CacheSlot, obj: Value, key: Value, val: Value) returns (done: bool)
    requires w.Valid() && slot.Fits(w) && slot !in w.Footprint()
    requires IsTable(obj) && Resolves(w.all.Keys, obj) && Resolves(w.all.Keys, val)
    modifies w.Footprint()
    ensures w.Valid() && slot.Fits(w) && w.Footprint() == old(w.Footprint()) && w.all == old(w.all)
    ensures done ==> SetFrom(old(w.Abstract()), obj, key, 0) == StoreIn(obj.ref)
    ensures w.Abstract() == if done then StoreWritten(old(w.Abstract()), obj.ref, key, val) else old(w.Abstract())
  {
    hide Tables.Abstract, AllKeepSlots, TableOk, Closed, Tables.Separate, StoreWritten;
    w.Peek(obj.ref);
    ghost var before := w.Shapes();
    done := WriteHit(w, slot, obj.ref, key, val);
    StillFits(w, slot, before);
  }

  method SlowWrite(w: Tables, ghost slot: CacheSlot, obj: Value, key: Value, val: Value) returns (r: Target)
    requires w.Valid() && slot.Fits(w) && slot !in w.Footprint()
    requires Resolves(w.all.Keys, obj) && Resolves(w.all.Keys, val)
    modifies w.Footprint()
    ensures w.Valid() && slot.Fits(w) && fresh(w.Footprint() - old(w.Footprint())) && slot !in w.Footprint()
    ensures r == SetFrom(old(w.Abstract()), obj, key, 0) && w.all == old(w.all)
    ensures w.Abstract() == if r.StoreIn? then StoreWritten(old(w.Abstract()), r.ref, key, val) else old(w.Abstract())
  {
    hide Tables.Valid, Tables.Abstract, AllKeepSlots;
    ghost var before := w.Shapes();
    r := SetIndexWithMeta(w, obj, key, val);
    StillFits(w, slot, before);
  }

  method CachedOne(w: Tables, slot: CacheSlot, e: Event) returns (os: seq<Outcome>)
    requires w.Valid() && slot.Fits(w) && slot !in w.Footprint() && EventOk(w.Abstract(), e)
    modifies w, w.Footprint(), slot
    ensures w.Valid() && slot.Fits(w) && fresh(w.Footprint() - old(w.Footprint())) && slot !in w.Footprint()
    ensures old(w.all.Keys) <= w.all.Keys
    ensures (w.Abstract(), os) == RunOne(old(w.Abstract()), e)
    decreases e, 3
  {
    hide Tables.Valid, Tables.Shapes, Tables.Abstract, TableStore.SetFrom, TableStore.IndexFrom, KeepsSlots;
    hide AllKeepSlots, StoreWritten, StoreSwept, StoreGrown, CacheSlot.Fits;
    w.KeysAre();
    match e
    case Read(obj, key) =>
      var a := IcGet(w, slot, obj, key);
      os := [Got(a)];
    case Assign(obj, key, val, during, handlerFails) =>
      os := CachedAssign(w, slot, obj, key, val, during, handlerFails);
    case WriteElsewhere(ref, key, val) =>
      OtherWrite(w, slot, ref, key, val);
      os := [];
    case NewMeta(ref, mt) =>
      OtherMeta(w, slot, ref, mt);
      os := [];
    case NewTable(ref, asize, hsize) =>
      OtherTable(w, slot, ref, asize, hsize);
      os := [];
    case SweepWeak(ref, weakKey, weakVal, gone) =>
      OtherSweep(w, slot, ref, weakKey, weakVal, gone);
      os := [];
  }

  lemma AssignRuns(s: Store, obj: Value, key: Value, val: Value, during: seq<Event>, handlerFails: bool)
    ensures var t := SetFrom(s, obj, key, 0);
      RunOne(s, Assign(obj, key, val, during, handlerFails)) ==
        if t.StoreIn? then (StoreWritten(s, t.ref, key, val), [Put(t)])
        else if t.CallSet? then (Run(s, during).0, [Put(t)] + Run(s, during).1)
        else (s, [Put(t)])
  {
  }

  lemma AssignOk(s: Store, obj: Value, key: Value, val: Value, during: seq<Event>, handlerFails: bool)
    requires EventOk(s, Assign(obj, key, val, during, handlerFails))
    ensures Resolves(s.content.Keys, obj) && Resolves(s.content.Keys, val)
    ensures SetFrom(s, obj, key, 0).CallSet? ==> HistoryOk(s, during)
  {
  }

  /** The cached write. */
  method CachedAssign(w: Tables, slot: CacheSlot, obj: Value, key: Value, val: Value, during: seq<Event>,
                      handlerFails: bool)
    returns (os: seq<Outcome>)
    requires w.Valid() && slot.Fits(w) && slot !in w.Footprint()
    requires EventOk(w.Abstract(), Assign(obj, key, val, during, handlerFails))
    modifies w, w.Footprint(), slot
    ensures w.Valid() && slot.Fits(w) && fresh(w.Footprint() - old(w.Footprint())) && slot !in w.Footprint()
    ensures old(w.all.Keys) <= w.all.Keys
    ensures (w.Abstract(), os) == RunOne(old(w.Abstract()), Assign(obj, key, val, during, handlerFails))
    decreases Assign(obj, key, val, during, handlerFails), 2
  {
    hide Tables.Valid, Tables.Shapes, Tables.Abstract, KeepsSlots, AllKeepSlots, StoreWritten, CacheSlot.Fits;
    hide SetFrom, RunOne, Run, Warm, Lookup;
    hide EventOk, HistoryOk;
    AssignRuns(w.Abstract(), obj, key, val, during, handlerFails);
    AssignOk(w.Abstract(), obj, key, val, during, handlerFails);
    w.KeysAre();
    if IsTable(obj) {
      var done := FastWrite(w, slot, obj, key, val);
      if done {
        return [Put(StoreIn(obj.ref))];
      }
    }
    os := SlowAssign(w, slot, obj, key, val, during, handlerFails);
  }

  /** The slow path and what follows it. */
  method SlowAssign(w: Tables, slot: CacheSlot, obj: Value, key: Value, val: Value, during: seq<Event>,
                    handlerFails: bool)
    returns (os: seq<Outcome>)
    requires w.Valid() && slot.Fits(w) && slot !in w.Footprint()
    requires Resolves(w.all.Keys, obj) && Resolves(w.all.Keys, val)
    requires SetFrom(w.Abstract(), obj, key, 0).CallSet? ==> HistoryOk(w.Abstract(), during)
    modifies w, w.Footprint(), slot
    ensures w.Valid() && slot.Fits(w) && fresh(w.Footprint() - old(w.Footprint())) && slot !in w.Footprint()
    ensures old(w.all.Keys) <= w.all.Keys
    ensures (w.Abstract(), os) == RunOne(old(w.Abstract()), Assign(obj, key, val, during, handlerFails))
    decreases Assign(obj, key, val, during, handlerFails), 1
  {
    hide Tables.Valid, Tables.Shapes, Tables.Abstract, KeepsSlots, AllKeepSlots, StoreWritten, CacheSlot.Fits;
    hide SetFrom, RunOne, Run, Warm, Lookup, EventOk, HistoryOk, Resolves;
    AssignRuns(w.Abstract(), obj, key, val, during, handlerFails);
    var t := SlowWrite(w, slot, obj, key, val);
    os := AfterTarget(w, slot, obj, key, val, during, handlerFails, t);
  }

  /** What follows once the slow path has settled where the value goes: a handler's own history, and
      the slot's refill. */
  method AfterTarget(w: Tables, slot: CacheSlot, obj: Value, key: Value, val: Value, during: seq<Event>,
                     handlerFails: bool, t: Target)
    returns (os: seq<Outcome>)
    requires w.Valid() && slot.Fits(w) && slot !in w.Footprint()
    requires Resolves(w.all.Keys, obj) && (t.CallSet? ==> HistoryOk(w.Abstract(), during))
    modifies w, w.Footprint(), slot
    ensures w.Valid() && slot.Fits(w) && fresh(w.Footprint() - old(w.Footprint())) && slot !in w.Footprint()
    ensures old(w.all.Keys) <= w.all.Keys
    ensures (w.Abstract(), os) ==
      if t.CallSet? then (Run(old(w.Abstract()), during).0, [Put(t)] + Run(old(w.Abstract()), during).1)
      else (old(w.Abstract()), [Put(t)])
    ensures var stored := !t.SetFails? && !(t.CallSet? && handlerFails);
      IsTable(obj) && !val.Nil? && stored && !Lookup(ContentOf(w.Abstract(), obj.ref), key).Nil? ==>
      Warm(w, slot, obj.ref, key)
    decreases Assign(obj, key, val, during, handlerFails), 0
  {
    hide Tables.Valid, Tables.Shapes, Tables.Abstract, KeepsSlots, AllKeepSlots, StoreWritten, CacheSlot.Fits, Run;
    hide Warm;
    os := [Put(t)];
    if t.SetFails? {
      return;
    }
    if t.CallSet? {
      var nested := RunCached(w, slot, during);
      os := os + nested;
      if handlerFails {
        return;
      }
    }
    if IsTable(obj) && !val.Nil? {
      Backfill(w, slot, obj.ref, key);
    }
  }

  /** Inline caches are invisible: over any history of one pc, whatever the slot holds at the start,
      the outcomes and the final tables are those of the uncached run. */
  method RunCached(w: Tables, slot: CacheSlot, es: seq<Event>) returns (os: seq<Outcome>)
    requires w.Valid() && slot.Fits(w) && slot !in w.Footprint()
    requires HistoryOk(w.Abstract(), es)
    modifies w, w.Footprint(), slot
    ensures w.Valid() && slot.Fits(w) && fresh(w.Footprint() - old(w.Footprint())) && slot !in w.Footprint()
    ensures old(w.all.Keys) <= w.all.Keys
    ensures (w.Abstract(), os) == Run(old(w.Abstract()), es) && History(old(w.Abstract()), es, w.Abstract(), os)
    decreases es
  {
    hide Tables.Valid, Tables.Shapes, Tables.Abstract, RunOne, CacheSlot.Fits, History;
    RunHappens(w.Abstract(), es);
    if es == [] {
      return [];
    }
    var first := CachedOne(w, slot, es[0]);
    var rest := RunCached(w, slot, es[1..]);
    os := first + rest;
  }
}
