/** Tables with metatables, and the uncached access path through `__index` and `__newindex`
    (internal/crescent/meta.go:15-70, 81-191). */
module TableStore {
  import opened Values
  import opened RawTable

  const MAX_CHAIN: nat := 100

  /** What a set of tables holds: each table's map and metatable reference (0 for none), plus the
      shared string metatable, the string library table and the userdata metatables. */
  datatype Store = Store(
    content: map<nat, map<Value, Value>>,
    meta: map<nat, nat>,
    stringMeta: nat,
    stringLib: nat,
    userdataMeta: map<nat, nat>,
    indexName: Value,
    newindexName: Value)

  datatype AccessError = NotIndexable(obj: Value) | GetLoop | SetLoop | BadKey(r: SetResult)

  /** A read ends with a value, with a handler to call, or with an error. */
  datatype Access = Found(v: Value) | CallGet(h: Value, obj: Value) | GetFails(e: AccessError)

  /** A write ends in one table, with a handler to call, or with an error. */
  datatype Target = StoreIn(ref: nat) | CallSet(h: Value, obj: Value) | SetFails(e: AccessError)

  predicate IsTable(v: Value) { v.Ref? && v.kind == TableRef }
  predicate IsFunction(v: Value) { v.Ref? && v.kind == FunctionRef }

  function ContentOf(s: Store, ref: nat): map<Value, Value> {
    if ref in s.content then s.content[ref] else map[]
  }

  function MetaOf(s: Store, ref: nat): nat {
    if ref in s.meta then s.meta[ref] else 0
  }

  /** A field of a metatable, nil without one. */
  function FieldIn(s: Store, mt: nat, name: Value): Value {
    if mt == 0 then Nil else Lookup(ContentOf(s, mt), name)
  }

  function MetaOfValue(s: Store, v: Value): nat {
    if IsTable(v) then MetaOf(s, v.ref)
    else if v.Ref? && v.kind == StringRef then s.stringMeta
    else if v.Ref? && v.kind == UserdataRef && v.ref in s.userdataMeta then s.userdataMeta[v.ref]
    else 0
  }

  /** The uncached read of obj[key], starting at some depth of the `__index` chain. */
  function IndexFrom(s: Store, obj: Value, key: Value, depth: nat): Access
    decreases MAX_CHAIN - depth
  {
    if depth >= MAX_CHAIN then GetFails(GetLoop)
    else if IsTable(obj) then
      var v := Lookup(ContentOf(s, obj.ref), key);
      if !v.Nil? then Found(v)
      else
        var h := FieldIn(s, MetaOf(s, obj.ref), s.indexName);
        if h.Nil? then Found(Nil)
        else if IsFunction(h) then CallGet(h, obj)
        else IndexFrom(s, h, key, depth + 1)
    else if obj.Ref? && obj.kind == UserdataRef then
      var h := FieldIn(s, MetaOfValue(s, obj), s.indexName);
      if h.Nil? then GetFails(NotIndexable(obj))
      else if IsFunction(h) then CallGet(h, obj)
      else IndexFrom(s, h, key, depth + 1)
    else if obj.Ref? && obj.kind == StringRef && s.stringMeta != 0 then
      var h := FieldIn(s, s.stringMeta, s.indexName);
      if h.Nil? then Found(Nil)
      else if IsFunction(h) then CallGet(h, obj)
      else IndexFrom(s, h, key, depth + 1)
    else if obj.Ref? && obj.kind == StringRef && s.stringLib != 0 then
      IndexFrom(s, Ref(TableRef, s.stringLib), key, depth + 1)
    else GetFails(NotIndexable(obj))
  }

  /** Where the uncached write obj[key] = val goes. */
  function SetFrom(s: Store, obj: Value, key: Value, depth: nat): Target
    decreases MAX_CHAIN - depth
  {
    if depth >= MAX_CHAIN then SetFails(SetLoop)
    else if IsTable(obj) then
      if !Lookup(ContentOf(s, obj.ref), key).Nil? then StoreIn(obj.ref)
      else if CheckKey(key) != Done then SetFails(BadKey(CheckKey(key)))
      else
        var h := FieldIn(s, MetaOf(s, obj.ref), s.newindexName);
        if h.Nil? then StoreIn(obj.ref)
        else if IsFunction(h) then CallSet(h, obj)
        else SetFrom(s, h, key, depth + 1)
    else
      var h := FieldIn(s, MetaOfValue(s, obj), s.newindexName);
      if h.Nil? then SetFails(NotIndexable(obj))
      else if IsFunction(h) then CallSet(h, obj)
      else SetFrom(s, h, key, depth + 1)
  }

  /** The store after a raw write to one table. */
  function StoreWritten(s: Store, ref: nat, key: Value, val: Value): Store {
    if ref in s.content then s.(content := s.content[ref := Written(s.content[ref], key, val)]) else s
  }

  /** The store after the collector swept one weak table. */
  function StoreSwept(s: Store, ref: nat, weakKey: bool, weakVal: bool, gone: set<nat>): Store {
    if ref in s.content
    then s.(content := s.content[ref := Survivors(s.content[ref], weakKey, weakVal, DeadIn(gone))]) else s
  }

  /** The store with one more table, empty and without a metatable. */
  function StoreGrown(s: Store, ref: nat): Store {
    s.(content := s.content[ref := map[]], meta := s.meta[ref := 0])
  }

  /** A value that refers to a table refers to one that exists. */
  predicate Resolves(refs: set<nat>, v: Value) {
    IsTable(v) ==> v.ref in refs
  }

  /** Every table reference held anywhere in the store leads to a table. */
  ghost predicate Closed(s: Store) {
    && s.content.Keys == s.meta.Keys
    && 0 !in s.content
    && (forall r, k :: r in s.content && k in s.content[r] ==> Resolves(s.content.Keys, s.content[r][k]))
    && (forall r :: r in s.meta ==> s.meta[r] == 0 || s.meta[r] in s.content)
    && (s.stringMeta == 0 || s.stringMeta in s.content)
    && (s.stringLib == 0 || s.stringLib in s.content)
    && (forall u :: u in s.userdataMeta ==> s.userdataMeta[u] == 0 || s.userdataMeta[u] in s.content)
  }

  lemma ClosedAfterWrite(s: Store, ref: nat, key: Value, val: Value)
    requires Closed(s) && Resolves(s.content.Keys, val)
    ensures Closed(StoreWritten(s, ref, key, val))
  {
    var s' := StoreWritten(s, ref, key, val);
    if ref in s.content {
      assert s'.content.Keys == s.content.Keys;
    }
  }

  lemma ClosedAfterSweep(s: Store, ref: nat, weakKey: bool, weakVal: bool, gone: set<nat>)
    requires Closed(s)
    ensures Closed(StoreSwept(s, ref, weakKey, weakVal, gone))
  {
    var s' := StoreSwept(s, ref, weakKey, weakVal, gone);
    assert s'.content.Keys == s.content.Keys;
  }

  lemma ClosedAfterNew(s: Store, ref: nat)
    requires Closed(s) && ref != 0 && ref !in s.content
    ensures Closed(StoreGrown(s, ref))
  {
    var s' := StoreGrown(s, ref);
    forall r, k | r in s'.content && k in s'.content[r] ensures Resolves(s'.content.Keys, s'.content[r][k]) {
      assert r in s.content && s'.content[r] == s.content[r];
    }
  }

  lemma GrownStore(s: Store, s': Store, ref: nat)
    requires s'.content.Keys == s.content.Keys + {ref} && s'.meta.Keys == s.meta.Keys + {ref}
    requires ref !in s.content && ref !in s.meta && s'.content[ref] == map[] && s'.meta[ref] == 0
    requires forall r :: r in s.content ==> s'.content[r] == s.content[r]
    requires forall r :: r in s.meta ==> s'.meta[r] == s.meta[r]
    requires s' == s.(content := s'.content, meta := s'.meta)
    ensures s' == StoreGrown(s, ref)
  {
    assert s'.content == s.content[ref := map[]] && s'.meta == s.meta[ref := 0];
  }

  /** Part sizes, nodes and generations, table by table. */
  ghost predicate AllKeepSlots(before: map<nat, Shape>, after: map<nat, Shape>) {
    before.Keys <= after.Keys && forall r :: r in before ==> KeepsSlots(before[r], after[r])
  }

  /** The tables themselves. */
  class Tables {
    const hash: Value -> nat
    var all: map<nat, RawTable>
    const stringMeta: nat
    const stringLib: nat
    const userdataMeta: map<nat, nat>
    const indexName: Value
    const newindexName: Value

    ghost function Footprint(): set<object>
      reads this, all.Values
    {
      (set r | r in all :: all[r] as object) + (set r | r in all :: all[r].arr as object)
        + (set r | r in all :: all[r].nodes as object)
    }

    ghost predicate Separate()
      reads this, all.Values
    {
      && (forall r, q :: r in all && q in all && r != q ==>
            all[r] != all[q] && all[r].arr != all[q].arr && all[r].nodes != all[q].nodes)
    }

    ghost predicate Valid()
      reads this, all.Values, Footprint()
    {
      && Separate()
      && (forall r :: r in all ==> all[r].Valid())
      && Closed(Abstract())
    }

    ghost function Abstract(): Store
      reads this, all.Values
    {
      Store(map r | r in all :: all[r].m, map r | r in all :: all[r].meta,
            stringMeta, stringLib, userdataMeta, indexName, newindexName)
    }

    ghost function Shapes(): map<nat, Shape>
      reads this, all.Values, Footprint()
    {
      map r | r in all :: all[r].Snapshot()
    }

    /** What one table shows of the store. */
    lemma Peek(r: nat)
      requires Valid() && r in all
      ensures all[r].Valid()
      ensures ContentOf(Abstract(), r) == all[r].m && MetaOf(Abstract(), r) == all[r].meta
      ensures all[r].meta == 0 || all[r].meta in all
      ensures forall k :: Resolves(all.Keys, Lookup(all[r].m, k))
    {
      AbstractKeys(r);
      assert r in Abstract().meta;
    }

    lemma PeekShared()
      requires Valid()
      ensures stringMeta == 0 || stringMeta in all
      ensures stringLib == 0 || stringLib in all
      ensures forall u :: u in userdataMeta ==> userdataMeta[u] == 0 || userdataMeta[u] in all
    {
      assert Abstract().content.Keys == all.Keys;
    }

    lemma InFootprint(r: nat)
      requires r in all
      ensures all[r] in Footprint() && all[r].arr in Footprint() && all[r].nodes in Footprint()
    {
    }

    /** A raw write to one table leaves the others alone. */
    method Write(ref: nat, key: Value, val: Value)
      requires Valid() && ref in all && Resolves(all.Keys, val)
      modifies Footprint()
      ensures Valid() && fresh(Footprint() - old(Footprint()))
      ensures Abstract() == StoreWritten(old(Abstract()), ref, key, val)
      ensures AllKeepSlots(old(Shapes()), Shapes())
    {
      hide TableOk, KeepsSlots, Written, Closed, Footprint, Separate, Abstract, RawTable.Valid;
      var t := all[ref];
      InFootprint(ref);
      AbstractKeys(ref);
      ClosedAfterWrite(Abstract(), ref, key, val);
      Apart(ref);
      label before:
      var r := t.RawSet(key, val);
      OthersKept@before(ref);
      AbstractKept@before(ref);
    }

    lemma AbstractKeys(ref: nat)
      requires ref in all
      ensures Abstract().content.Keys == all.Keys == Abstract().meta.Keys
      ensures Abstract().content[ref] == all[ref].m && Abstract().meta[ref] == all[ref].meta
    {
    }

    lemma Apart(ref: nat)
      requires ref in all && Separate()
      ensures forall r :: r in all && r != ref ==>
        all[r] != all[ref] && all[r].arr != all[ref].arr && all[r].nodes != all[ref].nodes
    {
    }

    /** What a change to one table, and fresh arrays for it, leave alone. */
    twostate lemma OthersKept(ref: nat)
      requires ref in all && old(Separate()) && all == old(all)
      requires forall r :: r in all && r != ref ==>
        unchanged(all[r]) && unchanged(all[r].arr) && unchanged(all[r].nodes)
      requires all[ref].arr == old(all[ref].arr) || fresh(all[ref].arr)
      requires all[ref].nodes == old(all[ref].nodes) || fresh(all[ref].nodes)
      requires KeepsSlots(old(all[ref].Snapshot()), all[ref].Snapshot())
      ensures Separate()
      ensures fresh(Footprint() - old(Footprint()))
      ensures forall r :: r in all && r != ref && old(all[r].Valid()) ==> all[r].Valid()
      ensures AllKeepSlots(old(Shapes()), Shapes())
    {
      hide TableOk;
    }

    twostate lemma AbstractKept(ref: nat)
      requires ref in all && all == old(all)
      requires forall r :: r in all && r != ref ==> unchanged(all[r])
      ensures old(Abstract().content.Keys) == old(Abstract().meta.Keys) == all.Keys
      ensures Abstract() == old(Abstract()).(content := old(Abstract()).content[ref := all[ref].m],
                                             meta := old(Abstract()).meta[ref := all[ref].meta])
      ensures all[ref].meta == old(all[ref].meta) ==>
        Abstract() == old(Abstract()).(content := old(Abstract()).content[ref := all[ref].m])
      ensures all[ref].m == old(all[ref].m) ==>
        Abstract() == old(Abstract()).(meta := old(Abstract()).meta[ref := all[ref].meta])
    {
      var s, s' := old(Abstract()), Abstract();
      assert s'.content == s.content[ref := all[ref].m];
      assert s'.meta == s.meta[ref := all[ref].meta];
      assert s.content[ref] == old(all[ref].m) && s.meta[ref] == old(all[ref].meta);
      assert s.content[ref := s.content[ref]] == s.content;
      assert s.meta[ref := s.meta[ref]] == s.meta;
    }

    lemma ClosedAfterMeta(ref: nat, mt: nat)
      requires Closed(Abstract()) && ref in all && (mt == 0 || mt in all)
      ensures Closed(Abstract().(meta := Abstract().meta[ref := mt]))
    {
      AbstractKeys(ref);
    }

    /** Writing into an array slot, or over the value of a node in use, changes no part and no
        slot's key. */
    method WriteArraySlot(ref: nat, i: nat, val: Value)
      requires Valid() && ref in all && Resolves(all.Keys, val) && i < all[ref].arr.Length
      modifies Footprint()
      ensures Valid() && Footprint() == old(Footprint())
      ensures Abstract() == StoreWritten(old(Abstract()), ref, Int(i + 1), val)
      ensures AllKeepSlots(old(Shapes()), Shapes())
    {
      hide TableOk, KeepsSlots, Written, Closed, Footprint, Separate, Abstract, RawTable.Valid;
      var t := all[ref];
      InFootprint(ref);
      AbstractKeys(ref);
      ClosedAfterWrite(Abstract(), ref, Int(i + 1), val);
      Apart(ref);
      label before:
      t.SetArraySlot(Int(i + 1), val);
      OthersKept@before(ref);
      AbstractKept@before(ref);
      SameFootprint@before(ref);
    }

    method WriteNode(ref: nat, i: nat, val: Value)
      requires Valid() && ref in all && Resolves(all.Keys, val) && !val.Nil?
      requires i < all[ref].nodes.Length && !all[ref].nodes[i].key.Nil?
      modifies Footprint()
      ensures Valid() && Footprint() == old(Footprint())
      ensures Abstract() == StoreWritten(old(Abstract()), ref, old(all[ref].nodes[i].key), val)
      ensures AllKeepSlots(old(Shapes()), Shapes())
    {
      hide TableOk, KeepsSlots, Closed, Footprint, Separate, Abstract, RawTable.Valid;
      var t := all[ref];
      ghost var k := t.nodes[i].key;
      t.SlotMeaning(i);
      InFootprint(ref);
      AbstractKeys(ref);
      ClosedAfterWrite(Abstract(), ref, k, val);
      Apart(ref);
      label before:
      t.SetSlotValue(i, val);
      OthersKept@before(ref);
      AbstractKept@before(ref);
      SameFootprint@before(ref);
    }

    twostate lemma SameFootprint(ref: nat)
      requires ref in all && all == old(all)
      requires forall r :: r in all && r != ref ==> unchanged(all[r])
      requires all[ref].arr == old(all[ref].arr) && all[ref].nodes == old(all[ref].nodes)
      ensures Footprint() == old(Footprint())
    {
    }

    /** The collector clears one table's dead weak entries in place. */
    method SweepWeak(ref: nat, weakKey: bool, weakVal: bool, gone: set<nat>)
      requires Valid() && ref in all
      modifies Footprint()
      ensures Valid() && Footprint() == old(Footprint())
      ensures Abstract() == StoreSwept(old(Abstract()), ref, weakKey, weakVal, gone)
      ensures AllKeepSlots(old(Shapes()), Shapes())
    {
      hide TableOk, KeepsSlots, Closed, Footprint, Separate, Abstract, Survivors, RawTable.Valid;
      var t := all[ref];
      InFootprint(ref);
      AbstractKeys(ref);
      ClosedAfterSweep(Abstract(), ref, weakKey, weakVal, gone);
      Apart(ref);
      label before:
      t.ClearWeak(weakKey, weakVal, DeadIn(gone));
      OthersKept@before(ref);
      AbstractKept@before(ref);
      SameFootprint@before(ref);
    }

    lemma KeysAre()
      ensures Abstract().content.Keys == all.Keys
    {
    }

    /** A table is made at an address not in use. */
    method Create(ref: nat, asize: nat, hsize: nat)
      requires Valid() && ref != 0 && ref !in all && (hsize == 0 || IsPow2(hsize))
      modifies this`all
      ensures Valid() && fresh(Footprint() - old(Footprint()))
      ensures Abstract() == StoreGrown(old(Abstract()), ref) && all.Keys == old(all.Keys) + {ref}
      ensures AllKeepSlots(old(Shapes()), Shapes())
    {
      hide Closed, TableOk, Footprint, Separate, Abstract, Shapes, RawTable.Valid, AllKeepSlots, StoreGrown;
      KeysAre();
      ClosedAfterNew(Abstract(), ref);
      var t := new RawTable(hash, asize, hsize);
      all := all[ref := t];
      GrownApart(ref);
      GrownAbstract(ref);
      GrownShapes(ref);
    }

    /** What one more table leaves alone. */
    twostate predicate OneMore(ref: nat)
      reads this, all.Values, set r | r in all :: all[r].arr, set r | r in all :: all[r].nodes
    {
      && ref in all && ref !in old(all) && all == old(all)[ref := all[ref]]
      && forall r :: r in old(all) ==>
           r in all && unchanged(all[r]) && unchanged(all[r].arr) && unchanged(all[r].nodes)
    }

    twostate lemma GrownApart(ref: nat)
      requires OneMore(ref) && old(Separate())
      requires fresh(all[ref]) && fresh(all[ref].arr) && fresh(all[ref].nodes)
      ensures Separate() && fresh(Footprint() - old(Footprint()))
    {
    }

    twostate lemma GrownAbstract(ref: nat)
      requires OneMore(ref) && all[ref].m == map[] && all[ref].meta == 0
      ensures Abstract() == StoreGrown(old(Abstract()), ref)
    {
      ghost var s, s' := old(Abstract()), Abstract();
      hide StoreGrown;
      OldKeys();
      KeysAre();
      forall r | r in old(all) ensures s'.content[r] == s.content[r] && s'.meta[r] == s.meta[r] {
      }
      GrownStore(s, s', ref);
    }

    twostate lemma OldKeys()
      ensures old(Abstract().content.Keys) == old(all.Keys) == old(Abstract().meta.Keys)
      ensures Abstract().meta.Keys == all.Keys
      ensures Abstract() == old(Abstract()).(content := Abstract().content, meta := Abstract().meta)
    {
    }

    twostate lemma GrownShapes(ref: nat)
      requires OneMore(ref)
      ensures AllKeepSlots(old(Shapes()), Shapes())
    {
      hide KeepsSlots;
      forall r | r in old(Shapes()) ensures KeepsSlots(old(Shapes())[r], Shapes()[r]) {
        assert old(all[r].Snapshot()) == all[r].Snapshot();
        SameSnapshot(Shapes()[r]);
      }
    }

    method SetMeta(ref: nat, mt: nat)
      requires Valid() && ref in all && (mt == 0 || mt in all)
      modifies Footprint()
      ensures Valid() && fresh(Footprint() - old(Footprint()))
      ensures Abstract() == old(Abstract()).(meta := old(Abstract()).meta[ref := mt])
      ensures AllKeepSlots(old(Shapes()), Shapes())
    {
      hide TableOk, KeepsSlots, Closed, Footprint, Separate, Abstract, RawTable.Valid;
      var t := all[ref];
      InFootprint(ref);
      ClosedAfterMeta(ref, mt);
      Apart(ref);
      ghost var shape := t.Snapshot();
      label before:
      t.SetMeta(mt);
      Bumped(shape, t.Snapshot());
      OthersKept@before(ref);
      AbstractKept@before(ref);
    }
  }
}
