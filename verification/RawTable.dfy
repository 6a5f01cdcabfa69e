/** The hybrid array and hash table (internal/crescent/rawtable.go, internal/object/table.go).

    A `RawTable` overwrites its array slots and nodes in place. The ghost field `m` is the finite
    map it stands for; every operation is specified on `m`. */
module RawTable {
  import opened Values
  import opened NodeChains
  import opened ArraySizing

  /** What the map holds for a key as the program wrote it. */
  function Lookup(m: map<Value, Value>, key: Value): Value {
    if NormKey(key) in m then m[NormKey(key)] else Nil
  }

  datatype SetResult = Done | IndexIsNil | IndexIsNaN

  function CheckKey(key: Value): SetResult {
    if key.Nil? then IndexIsNil else if key.NaN? then IndexIsNaN else Done
  }

  /** The map after `t[key] = val`: nil deletes, a bad key changes nothing. */
  function Written(m: map<Value, Value>, key: Value, val: Value): map<Value, Value> {
    if CheckKey(key) != Done then m
    else if val.Nil? then m - {NormKey(key)}
    else m[NormKey(key) := val]
  }

  /** m' is m after `t[key] = val`, told key by key: nil and NaN are no keys, -0 is the key +0. */
  ghost predicate StoredAs(m: map<Value, Value>, key: Value, val: Value, m': map<Value, Value>) {
    if key.Nil? || key.NaN? then m' == m
    else
      var k := if key.NegZero? then Int(0) else key;
      && (forall j :: j in m' <==> if j == k then !val.Nil? else j in m)
      && (forall j :: j in m' ==> m'[j] == if j == k then val else m[j])
  }

  lemma WrittenIs(m: map<Value, Value>, key: Value, val: Value)
    ensures StoredAs(m, key, val, Written(m, key, val))
  {
  }

  /** The map without the entries that have a dead weak side. */
  function Survivors(m: map<Value, Value>, weakKey: bool, weakVal: bool, dead: Value -> bool): map<Value, Value> {
    map k | k in m && !(weakKey && dead(k)) && !(weakVal && dead(m[k])) :: m[k]
  }

  /** What a collection that freed the objects in `gone` calls dead. */
  function DeadIn(gone: set<nat>): Value -> bool {
    (v: Value) => v.Ref? && v.ref in gone
  }

  // ---- what slots hold, and for how long ----

  /** What a cached slot index relies on: part sizes, the nodes, and the generation. */
  datatype Shape = Shape(asize: nat, ns: seq<Node>, gen: nat)

  /** While the generation stands, part sizes stand and a slot in use keeps its key. */
  ghost predicate KeepsSlots(before: Shape, after: Shape) {
    && before.gen <= after.gen
    && (before.gen == after.gen ==>
          && before.asize == after.asize
          && |before.ns| == |after.ns|
          && forall s :: 0 <= s < |before.ns| && !before.ns[s].key.Nil? ==> after.ns[s].key == before.ns[s].key)
  }

  /** The same keys in the same places; values may differ. */
  ghost predicate SamePlaces(arr: seq<Value>, ns: seq<Node>, arr': seq<Value>, ns': seq<Node>) {
    && |arr'| == |arr| && (forall i :: 0 <= i < |arr| ==> (arr'[i].Nil? <==> arr[i].Nil?))
    && |ns'| == |ns| && (forall i :: 0 <= i < |ns| ==> ns'[i].key == ns[i].key && ns'[i].next == ns[i].next)
  }

  lemma SamePlacesArray(arr: seq<Value>, ns: seq<Node>, i: nat, v: Value)
    requires i < |arr|
    ensures !arr[i].Nil? && !v.Nil? ==> SamePlaces(arr, ns, arr[i := v], ns)
  {
  }

  lemma SamePlacesNode(arr: seq<Value>, ns: seq<Node>, i: nat, v: Value)
    requires i < |ns|
    ensures SamePlaces(arr, ns, arr, ns[i := ns[i].(val := v)])
  {
  }

  lemma SameSnapshot(s: Shape)
    ensures KeepsSlots(s, s)
  {
  }

  lemma GenKept(before: Shape, after: Shape)
    requires KeepsSlots(before, after)
    ensures before.gen <= after.gen
  {
  }

  lemma Bumped(before: Shape, after: Shape)
    requires after.gen > before.gen
    ensures KeepsSlots(before, after)
  {
  }

  lemma KeepsSlotsTransitive(a: Shape, b: Shape, c: Shape)
    requires KeepsSlots(a, b) && KeepsSlots(b, c)
    ensures KeepsSlots(a, c)
  {
  }

  // ---- live pairs in traversal order ----

  function ArrayPairs(arr: seq<Value>, n: nat): seq<(Value, Value)>
    requires n <= |arr|
  {
    if n == 0 then []
    else ArrayPairs(arr, n - 1) + if arr[n - 1].Nil? then [] else [(Int(n), arr[n - 1])]
  }

  function NodePairs(ns: seq<Node>, n: nat): seq<(Value, Value)>
    requires n <= |ns|
  {
    if n == 0 then []
    else NodePairs(ns, n - 1) + if ns[n - 1].key.Nil? then [] else [(ns[n - 1].key, ns[n - 1].val)]
  }

  function LivePairs(arr: seq<Value>, ns: seq<Node>): seq<(Value, Value)> {
    ArrayPairs(arr, |arr|) + NodePairs(ns, |ns|)
  }

  /** `all` lists the pairs of m, each once. */
  ghost predicate Lists(all: seq<(Value, Value)>, m: map<Value, Value>) {
    && (forall i :: 0 <= i < |all| ==> all[i].0 in m && m[all[i].0] == all[i].1)
    && KeysDiffer(all)
    && (forall k :: k in m ==> HasKey(all, k))
  }

  /** The array and node contents agree with the map. */
  ghost predicate Agree(arr: seq<Value>, ns: seq<Node>, at: map<Value, int>, m: map<Value, Value>) {
    && (forall k :: k in m ==> IsKey(k) && !m[k].Nil?)
    && (forall i :: 0 <= i < |arr| ==>
          if arr[i].Nil? then Int(i + 1) !in m else Int(i + 1) in m && m[Int(i + 1)] == arr[i])
    && (forall k :: k in at ==>
          !InArray(k, |arr|) && k in m && 0 <= at[k] < |ns| && m[k] == ns[at[k]].val)
    && (forall k :: k in m && !InArray(k, |arr|) ==> k in at)
  }

  ghost predicate FromArray(p: (Value, Value), arr: seq<Value>, n: nat)
    requires n <= |arr|
  {
    InArray(p.0, n) && arr[p.0.n - 1] == p.1 && !p.1.Nil?
  }

  ghost predicate FromNode(p: (Value, Value), ns: seq<Node>, at: map<Value, int>, n: nat)
    requires n <= |ns|
  {
    !p.0.Nil? && p.0 in at && 0 <= at[p.0] < n && ns[at[p.0]].key == p.0 && ns[at[p.0]].val == p.1
  }

  ghost predicate HasKey(all: seq<(Value, Value)>, k: Value) {
    exists i :: 0 <= i < |all| && all[i].0 == k
  }

  ghost predicate KeysDiffer(all: seq<(Value, Value)>) {
    forall i, j :: 0 <= i < j < |all| ==> all[i].0 != all[j].0
  }

  ghost predicate ArrayListed(all: seq<(Value, Value)>, arr: seq<Value>, n: nat)
    requires n <= |arr|
  {
    && (forall i :: 0 <= i < |all| ==> FromArray(all[i], arr, n))
    && (forall i :: 0 <= i < n && !arr[i].Nil? ==> HasKey(all, Int(i + 1)))
  }

  ghost predicate NodesListed(all: seq<(Value, Value)>, ns: seq<Node>, at: map<Value, int>, n: nat)
    requires n <= |ns|
  {
    && (forall i :: 0 <= i < |all| ==> FromNode(all[i], ns, at, n))
    && (forall s :: 0 <= s < n && !ns[s].key.Nil? ==> HasKey(all, ns[s].key))
  }

  lemma HasKeyAppend(a: seq<(Value, Value)>, b: seq<(Value, Value)>)
    ensures forall k :: HasKey(a + b, k) <==> HasKey(a, k) || HasKey(b, k)
  {
    forall k ensures HasKey(a + b, k) <==> HasKey(a, k) || HasKey(b, k) {
      if HasKey(a, k) {
        var i :| 0 <= i < |a| && a[i].0 == k;
        assert (a + b)[i].0 == k;
      }
      if HasKey(b, k) {
        var i :| 0 <= i < |b| && b[i].0 == k;
        assert (a + b)[|a| + i].0 == k;
      }
    }
  }

  lemma KeysDifferAppend(a: seq<(Value, Value)>, p: (Value, Value))
    requires KeysDiffer(a) && forall i :: 0 <= i < |a| ==> a[i].0 != p.0
    ensures KeysDiffer(a + [p])
  {
  }

  lemma {:induction false} ArrayPairsListed(arr: seq<Value>, n: nat)
    requires n <= |arr|
    ensures ArrayListed(ArrayPairs(arr, n), arr, n) && KeysDiffer(ArrayPairs(arr, n))
  {
    if n > 0 {
      ArrayPairsListed(arr, n - 1);
      var init, all := ArrayPairs(arr, n - 1), ArrayPairs(arr, n);
      forall i | 0 <= i < |init|
        ensures FromArray(init[i], arr, n) && init[i].0 != Int(n)
      {
        assert FromArray(init[i], arr, n - 1);
      }
      if !arr[n - 1].Nil? {
        var last := (Int(n), arr[n - 1]);
        assert all == init + [last];
        HasKeyAppend(init, [last]);
        assert [last][0].0 == Int(n) && HasKey([last], Int(n));
        KeysDifferAppend(init, last);
      } else {
        assert all == init;
      }
    }
  }

  lemma {:induction false} NodePairsListed(ns: seq<Node>, at: map<Value, int>, n: nat)
    requires n <= |ns|
    requires forall i :: 0 <= i < |ns| && !ns[i].key.Nil? ==> ns[i].key in at && at[ns[i].key] == i
    ensures NodesListed(NodePairs(ns, n), ns, at, n) && KeysDiffer(NodePairs(ns, n))
  {
    if n > 0 {
      NodePairsListed(ns, at, n - 1);
      var init, all := NodePairs(ns, n - 1), NodePairs(ns, n);
      forall i | 0 <= i < |init|
        ensures FromNode(init[i], ns, at, n) && init[i].0 != ns[n - 1].key
      {
        assert FromNode(init[i], ns, at, n - 1);
      }
      if !ns[n - 1].key.Nil? {
        var last := (ns[n - 1].key, ns[n - 1].val);
        assert all == init + [last];
        HasKeyAppend(init, [last]);
        assert [last][0].0 == ns[n - 1].key && HasKey([last], ns[n - 1].key);
        KeysDifferAppend(init, last);
      } else {
        assert all == init;
      }
    }
  }

  lemma LivePairsListed(arr: seq<Value>, ns: seq<Node>, at: map<Value, int>, m: map<Value, Value>)
    requires Agree(arr, ns, at, m)
    requires forall i :: 0 <= i < |ns| && !ns[i].key.Nil? ==> ns[i].key in at && at[ns[i].key] == i
    requires forall k :: k in at ==> 0 <= at[k] < |ns| && ns[at[k]].key == k && !k.Nil?
    ensures Lists(LivePairs(arr, ns), m)
  {
    var a, b, all := ArrayPairs(arr, |arr|), NodePairs(ns, |ns|), LivePairs(arr, ns);
    ArrayPairsListed(arr, |arr|);
    NodePairsListed(ns, at, |ns|);
    HasKeyAppend(a, b);
    forall i | 0 <= i < |all|
      ensures all[i].0 in m && m[all[i].0] == all[i].1
      ensures i < |a| <==> InArray(all[i].0, |arr|)
    {
      if i < |a| {
        assert all[i] == a[i] && FromArray(a[i], arr, |arr|);
        var slot := all[i].0.n - 1;
        assert Int(slot + 1) in m && arr[slot] == a[i].1;
      } else {
        assert all[i] == b[i - |a|] && FromNode(b[i - |a|], ns, at, |ns|);
      }
    }
    forall i, j | 0 <= i < j < |all|
      ensures all[i].0 != all[j].0
    {
      if j < |a| {
        assert a[i].0 != a[j].0;
      } else if i >= |a| {
        assert b[i - |a|].0 != b[j - |a|].0;
      }
    }
    forall k | k in m
      ensures HasKey(all, k)
    {
      if InArray(k, |arr|) {
        var slot := k.n - 1;
        assert Int(slot + 1) in m && !arr[slot].Nil? && HasKey(a, Int(slot + 1));
      } else {
        assert ns[at[k]].key == k && HasKey(b, k);
      }
    }
  }

  /** The map after writing the first j pairs into an empty table. */
  ghost function Prefix(all: seq<(Value, Value)>, j: nat): map<Value, Value>
    requires j <= |all|
  {
    if j == 0 then map[] else Prefix(all, j - 1)[all[j - 1].0 := all[j - 1].1]
  }

  lemma {:induction false} PrefixKeys(all: seq<(Value, Value)>, m: map<Value, Value>, j: nat)
    requires Lists(all, m) && j <= |all|
    ensures forall i :: 0 <= i < j ==> all[i].0 in Prefix(all, j)
    ensures forall i :: j <= i < |all| ==> all[i].0 !in Prefix(all, j)
    ensures forall k :: k in Prefix(all, j) ==> k in m && Prefix(all, j)[k] == m[k]
  {
    if j > 0 {
      PrefixKeys(all, m, j - 1);
    }
  }

  lemma PrefixAll(all: seq<(Value, Value)>, m: map<Value, Value>)
    requires Lists(all, m)
    ensures Prefix(all, |all|) == m
  {
    PrefixKeys(all, m, |all|);
    forall k | k in m ensures k in Prefix(all, |all|) {
      assert HasKey(all, k);
    }
  }

  /** How many of the first j pairs belong in the hash part. */
  function HashCount(all: seq<(Value, Value)>, j: nat, asize: nat): (c: nat)
    requires j <= |all|
    ensures c <= j
  {
    if j == 0 then 0 else HashCount(all, j - 1, asize) + if InArray(all[j - 1].0, asize) then 0 else 1
  }

  lemma {:induction false} HashCountMonotone(all: seq<(Value, Value)>, i: nat, j: nat, asize: nat)
    requires i <= j <= |all|
    ensures HashCount(all, i, asize) <= HashCount(all, j, asize)
  {
    if i < j { HashCountMonotone(all, i, j - 1, asize); }
  }

  // ---- one step on the contents ----

  ghost predicate TableOk(main: Value -> nat, arr: seq<Value>, ns: seq<Node>, lastFree: nat, c: Chart,
                          m: map<Value, Value>) {
    HashOk(main, ns, lastFree, c) && Agree(arr, ns, c.at, m)
  }

  /** The free cursor came down to f past slots that were not free. */
  ghost predicate SkippedInUse(ns: seq<Node>, f: nat, cursor: nat) {
    forall i :: f < i < |ns| && i < cursor ==> !IsFree(ns[i])
  }

  /** One more slot is in use; a packed hash part stays packed. */
  ghost predicate Filled(ns: seq<Node>, cursor: nat, ns': seq<Node>, cursor': nat) {
    && |Occupied(ns')| == |Occupied(ns)| + 1
    && (Packed(ns, cursor) ==> Packed(ns', cursor'))
  }

  lemma ChainedFills(ns: seq<Node>, cursor: nat, o: int, f: int, k: Value, v: Value)
    requires 0 <= o < |ns| && 0 <= f < |ns| && f < cursor && f != o && IsFree(ns[f]) && SkippedInUse(ns, f, cursor)
    requires forall i :: 0 <= i < |ns| ==> (ns[i].key.Nil? <==> ns[i].val.Nil?)
    requires !k.Nil? && !IsFree(ns[o])
    ensures Filled(ns, cursor, Chained(ns, o, f, k, v), f)
  {
    var ns' := Chained(ns, o, f, k, v);
    if Packed(ns, cursor) { InUseAbove(ns, cursor, f); }
    FillsOne(ns, cursor, ns', f);
  }

  lemma RelocatedFills(ns: seq<Node>, cursor: nat, o: int, f: int, p: int, k: Value, v: Value)
    requires 0 <= o < |ns| && 0 <= f < |ns| && f < cursor && f != o && IsFree(ns[f]) && SkippedInUse(ns, f, cursor)
    requires 0 <= p < |ns| && p != f && p != o && ns[p].next == o && !ns[o].key.Nil? && !k.Nil?
    requires forall i :: 0 <= i < |ns| ==> (ns[i].key.Nil? <==> ns[i].val.Nil?)
    ensures Filled(ns, cursor, Relocated(ns, o, f, p, k, v), f)
  {
    var ns' := Relocated(ns, o, f, p, k, v);
    if Packed(ns, cursor) { InUseAbove(ns, cursor, f); }
    FillsOne(ns, cursor, ns', f);
  }

  lemma InUseAbove(ns: seq<Node>, cursor: nat, f: nat)
    requires Packed(ns, cursor) && SkippedInUse(ns, f, cursor)
    requires forall i :: 0 <= i < |ns| ==> (ns[i].key.Nil? <==> ns[i].val.Nil?)
    ensures forall i :: f < i < |ns| ==> !ns[i].key.Nil?
  {
  }

  lemma FillsOne(ns: seq<Node>, cursor: nat, ns': seq<Node>, f: nat)
    requires |ns'| == |ns| && f < |ns| && ns[f].key.Nil? && !ns'[f].key.Nil?
    requires forall i :: 0 <= i < |ns| && i != f ==> (ns'[i].key.Nil? <==> ns[i].key.Nil?)
    requires Packed(ns, cursor) ==> forall i :: f < i < |ns| ==> !ns[i].key.Nil?
    requires Packed(ns, cursor) ==> forall i :: 0 <= i < |ns| && ns'[i].key.Nil? ==> ns'[i].next < 0
    ensures Filled(ns, cursor, ns', f)
  {
    assert Occupied(ns') == Occupied(ns) + {f};
  }

  lemma ArrayStep(main: Value -> nat, arr: seq<Value>, ns: seq<Node>, lastFree: nat, c: Chart, m: map<Value, Value>,
                  k: Value, v: Value)
    requires TableOk(main, arr, ns, lastFree, c, m) && InArray(k, |arr|)
    ensures TableOk(main, arr[k.n - 1 := v], ns, lastFree, c, Written(m, k, v))
  {
  }

  lemma ValueStep(main: Value -> nat, arr: seq<Value>, ns: seq<Node>, lastFree: nat, c: Chart, m: map<Value, Value>,
                  i: int, v: Value)
    requires TableOk(main, arr, ns, lastFree, c, m)
    requires 0 <= i < |ns| && !ns[i].key.Nil? && !v.Nil?
    ensures TableOk(main, arr, ns[i := ns[i].(val := v)], lastFree, c, m[ns[i].key := v])
  {
    SetValueOk(main, ns, lastFree, c, i, v);
    KeyHere(main, ns, lastFree, c, i);
    hide HashOk, Agree;
    AgreeValue(arr, ns, c.at, m, i, v);
  }

  lemma KeyHere(main: Value -> nat, ns: seq<Node>, lastFree: nat, c: Chart, i: int)
    requires HashOk(main, ns, lastFree, c) && 0 <= i < |ns| && !ns[i].key.Nil?
    ensures ns[i].key in c.at && c.at[ns[i].key] == i && IsKey(ns[i].key)
    ensures forall k :: k in c.at ==> (c.at[k] == i <==> k == ns[i].key)
  {
  }

  lemma AgreeValue(arr: seq<Value>, ns: seq<Node>, at: map<Value, int>, m: map<Value, Value>, i: int, v: Value)
    requires Agree(arr, ns, at, m) && 0 <= i < |ns| && !v.Nil?
    requires ns[i].key in at && at[ns[i].key] == i && IsKey(ns[i].key)
    requires forall k :: k in at ==> (at[k] == i <==> k == ns[i].key)
    ensures Agree(arr, ns[i := ns[i].(val := v)], at, m[ns[i].key := v])
  {
  }

  lemma DeleteStep(main: Value -> nat, arr: seq<Value>, ns: seq<Node>, lastFree: nat, c: Chart, m: map<Value, Value>,
                   i: int)
    requires TableOk(main, arr, ns, lastFree, c, m)
    requires 0 <= i < |ns| && !ns[i].key.Nil?
    ensures TableOk(main, arr, ns[i := Node(Nil, Nil, ns[i].next)], lastFree, c.(at := c.at - {ns[i].key}),
      m - {ns[i].key})
  {
    TombstoneOk(main, ns, lastFree, c, i);
    AgreeDelete(arr, ns, c.at, m, i);
  }

  lemma AgreeDelete(arr: seq<Value>, ns: seq<Node>, at: map<Value, int>, m: map<Value, Value>, i: int)
    requires Agree(arr, ns, at, m)
    requires 0 <= i < |ns| && ns[i].key in at && at[ns[i].key] == i
    requires forall j :: j in at && j != ns[i].key ==> at[j] != i
    ensures Agree(arr, ns[i := Node(Nil, Nil, ns[i].next)], at - {ns[i].key}, m - {ns[i].key})
  {
  }

  /** Whatever way the nodes were rearranged, a new key joins the map if it alone was added. */
  lemma AgreeInsert(arr: seq<Value>, ns: seq<Node>, at: map<Value, int>, m: map<Value, Value>,
                    ns': seq<Node>, at': map<Value, int>, k: Value, v: Value)
    requires Agree(arr, ns, at, m) && |ns'| == |ns|
    requires IsKey(k) && !v.Nil? && k !in at && !InArray(k, |arr|)
    requires forall j :: j in at' <==> j in at || j == k
    requires 0 <= at'[k] < |ns| && ns'[at'[k]].val == v
    requires forall j :: j in at ==> 0 <= at'[j] < |ns| && ns'[at'[j]].val == ns[at[j]].val
    ensures Agree(arr, ns', at', m[k := v])
  {
  }

  lemma PlaceStep(main: Value -> nat, arr: seq<Value>, ns: seq<Node>, lastFree: nat, c: Chart, m: map<Value, Value>,
                  k: Value, v: Value)
    requires |ns| > 0 && TableOk(main, arr, ns, lastFree, c, m) && main(k) < |ns|
    requires IsKey(k) && !v.Nil? && !InArray(k, |arr|) && k !in m && IsFree(ns[main(k)])
    ensures TableOk(main, arr, ns[main(k) := Node(k, v, -1)], lastFree, c.(at := c.at[k := main(k)]), m[k := v])
    ensures Filled(ns, lastFree, ns[main(k) := Node(k, v, -1)], lastFree)
  {
    PlaceAtMainOk(main, ns, lastFree, c, k, v);
    PackedAfterInsert(ns, ns[main(k) := Node(k, v, -1)], lastFree, lastFree, main(k));
    AgreeInsert(arr, ns, c.at, m, ns[main(k) := Node(k, v, -1)], c.at[k := main(k)], k, v);
  }

  lemma ChainStep(main: Value -> nat, arr: seq<Value>, ns: seq<Node>, lastFree: nat, c: Chart, m: map<Value, Value>,
                  f: int, k: Value, v: Value)
    requires |ns| > 0 && TableOk(main, arr, ns, lastFree, c, m) && main(k) < |ns|
    requires IsKey(k) && !v.Nil? && !InArray(k, |arr|) && k !in m
    requires 0 <= f < lastFree && f < |ns| && IsFree(ns[f]) && !IsFree(ns[main(k)])
    requires var occ := ns[main(k)].key; occ.Nil? || main(occ) == main(k)
    requires SkippedInUse(ns, f, lastFree)
    ensures |c.reach| == |c.pred| == |ns| && ns[main(k)].next < |ns|
    ensures Filled(ns, lastFree, Chained(ns, main(k), f, k, v), f)
    ensures TableOk(main, arr, Chained(ns, main(k), f, k, v), f, ChainedChart(ns, c, main(k), f, k), m[k := v])
  {
    ChainedOk(main, ns, lastFree, c, f, k, v);
    assert main(k) != f;
    ChainedFills(ns, lastFree, main(k), f, k, v);
    AgreeChained(arr, ns, c.at, m, main(k), f, k, v);
  }

  lemma AgreeChained(arr: seq<Value>, ns: seq<Node>, at: map<Value, int>, m: map<Value, Value>,
                     o: int, f: int, k: Value, v: Value)
    requires Agree(arr, ns, at, m)
    requires IsKey(k) && !v.Nil? && k !in at && !InArray(k, |arr|)
    requires 0 <= o < |ns| && 0 <= f < |ns| && o != f && ns[f].key.Nil?
    requires forall j :: j in at ==> 0 <= at[j] < |ns| && ns[at[j]].key == j && !j.Nil?
    ensures Agree(arr, Chained(ns, o, f, k, v), at[k := f], m[k := v])
  {
    AgreeInsert(arr, ns, at, m, Chained(ns, o, f, k, v), at[k := f], k, v);
  }

  lemma RelocateStep(main: Value -> nat, arr: seq<Value>, ns: seq<Node>, lastFree: nat, c: Chart,
                     m: map<Value, Value>, f: int, p: int, k: Value, v: Value)
    requires |ns| > 0 && TableOk(main, arr, ns, lastFree, c, m) && main(k) < |ns|
    requires IsKey(k) && !v.Nil? && !InArray(k, |arr|) && k !in m
    requires 0 <= f < lastFree && f < |ns| && IsFree(ns[f])
    requires var o := main(k);
      !ns[o].key.Nil? && main(ns[o].key) != o && 0 <= p < |ns| && ns[p].next == o
    requires SkippedInUse(ns, f, lastFree)
    ensures |c.reach| == |c.pred| == |ns| && ns[main(k)].next < |ns|
    ensures Filled(ns, lastFree, Relocated(ns, main(k), f, p, k, v), f)
    ensures TableOk(main, arr, Relocated(ns, main(k), f, p, k, v), f, RelocatedChart(ns, c, main(k), f, p, k),
      m[k := v])
  {
    RelocatedOk(main, ns, lastFree, c, f, p, k, v);
    var o := main(k);
    RelocatedFills(ns, lastFree, o, f, p, k, v);
    AgreeRelocated(arr, ns, c.at, m, o, f, p, k, v);
  }

  lemma AgreeRelocated(arr: seq<Value>, ns: seq<Node>, at: map<Value, int>, m: map<Value, Value>,
                       o: int, f: int, p: int, k: Value, v: Value)
    requires Agree(arr, ns, at, m)
    requires IsKey(k) && !v.Nil? && k !in at && !InArray(k, |arr|)
    requires 0 <= o < |ns| && 0 <= f < |ns| && 0 <= p < |ns| && o != f && p != o && p != f
    requires ns[o].key in at && at[ns[o].key] == o && ns[f].key.Nil?
    requires forall j :: j in at ==> 0 <= at[j] < |ns| && ns[at[j]].key == j && !j.Nil?
    ensures Agree(arr, Relocated(ns, o, f, p, k, v), at[ns[o].key := f][k := o], m[k := v])
  {
    AgreeInsert(arr, ns, at, m, Relocated(ns, o, f, p, k, v), at[ns[o].key := f][k := o], k, v);
  }

  lemma {:induction false} PredecessorStep(main: Value -> nat, ns: seq<Node>, lastFree: nat, c: Chart, prev: int,
                                           target: int)
    requires HashOk(main, ns, lastFree, c)
    requires 0 <= prev < |ns| && prev != target && target in c.reach[prev]
    ensures 0 <= ns[prev].next < |ns| && target in c.reach[ns[prev].next]
    ensures c.reach[ns[prev].next] < c.reach[prev]
  {
  }

  lemma LowerCursor(main: Value -> nat, arr: seq<Value>, ns: seq<Node>, lastFree: nat, c: Chart,
                    m: map<Value, Value>, f: nat)
    requires TableOk(main, arr, ns, lastFree, c, m) && f <= lastFree
    ensures TableOk(main, arr, ns, f, c, m)
  {
  }

  /** `hash & (size - 1)`, the size being a power of two. */
  function MainOf(hash: Value -> nat, size: nat): (f: Value -> nat)
    ensures forall k :: size > 0 ==> f(k) < size
  {
    (k: Value) => if size == 0 then 0 else hash(k) % size
  }

  class RawTable {
    const hash: Value -> nat
    var arr: array<Value>
    var nodes: array<Node>
    var lastFree: nat
    var gen: nat  // counts on past 2^32, where the stored field wraps
    var meta: nat  // reference of the metatable, 0 for none
    ghost var chart: Chart
    ghost var m: map<Value, Value>

    ghost function Main(): Value -> nat
      reads this
    {
      MainOf(hash, nodes.Length)
    }

    ghost predicate Valid()
      reads this, arr, nodes
    {
      && (nodes.Length == 0 || IsPow2(nodes.Length))
      && TableOk(Main(), arr[..], nodes[..], lastFree, chart, m)
    }

    ghost function Snapshot(): Shape
      reads this, nodes
    {
      Shape(arr.Length, nodes[..], gen)
    }

    /** No rehash can be needed to insert k. */
    ghost predicate Room(k: Value)
      reads this, nodes
    {
      && Packed(nodes[..], lastFree)
      && (InArray(k, arr.Length) || |Occupied(nodes[..])| < nodes.Length)
    }

    /** A table with preallocated parts; the free cursor starts at 0, so the first collision rehashes. */
    constructor (hash: Value -> nat, asize: nat, hsize: nat)
      requires hsize == 0 || IsPow2(hsize)
      ensures Valid() && m == map[] && fresh(arr) && fresh(nodes)
      ensures this.hash == hash && arr.Length == asize && nodes.Length == hsize && meta == 0
    {
      this.hash := hash;
      arr := new Value[asize](_ => Nil);
      nodes := new Node[hsize](_ => EMPTY_NODE);
      lastFree, gen, meta, m := 0, 0, 0, map[];
      new;
      chart := EmptyTableOk(Main(), arr[..], nodes[..], 0);
    }

    method BumpGen()
      modifies this`gen
      ensures gen == old(gen) + 1
    {
      gen := gen + 1;
    }

    /** The walk along the chain of a key's main slot. */
    method FindSlot(k: Value) returns (i: int)
      requires Valid() && !k.Nil? && !k.NegZero?
      ensures k in chart.at ==> i == chart.at[k]
      ensures k !in chart.at ==> i == -1
      ensures i >= 0 ==> i < nodes.Length && nodes[i].key == k && k in m && m[k] == nodes[i].val
      ensures i < 0 && !InArray(k, arr.Length) ==> k !in m
    {
      if nodes.Length == 0 {
        return -1;
      }
      i := hash(k) % nodes.Length;
      assert i == Main()(k);
      while i >= 0
        invariant -1 <= i < nodes.Length
        invariant k in chart.at ==> i >= 0 && chart.at[k] in chart.reach[i]
        decreases ReachFrom(chart.reach, i)
      {
        assert nodes[..][i] == nodes[i];
        if KeyEqual(nodes[i].key, k) {
          return;
        }
        i := nodes[i].next;
      }
    }

    method RawGet(key: Value) returns (v: Value)
      requires Valid()
      ensures v == Lookup(m, key)
      ensures var k := if key.NegZero? then Int(0) else key; v == if k in m then m[k] else Nil
    {
      if key.Nil? {
        return Nil;
      }
      var k := NormKey(key);
      if InArray(k, arr.Length) {
        assert arr[..][k.n - 1] == arr[k.n - 1];
        return arr[k.n - 1];
      }
      var i := FindSlot(k);
      if i >= 0 {
        return nodes[i].val;
      }
      return Nil;
    }

    method RawSet(key: Value, val: Value) returns (r: SetResult)
      requires Valid()
      modifies this, arr, nodes
      ensures meta == old(meta)
      ensures Valid()
      ensures arr == old(arr) || fresh(arr)
      ensures nodes == old(nodes) || fresh(nodes)
      ensures gen >= old(gen)
      ensures r == if key.Nil? then IndexIsNil else if key.NaN? then IndexIsNaN else Done
      ensures m == Written(old(m), key, val) && StoredAs(old(m), key, val, m)
      ensures KeepsSlots(old(Snapshot()), Snapshot())
      ensures r == Done && old(Room(NormKey(key))) && !val.Nil? && NormKey(key) !in old(m) ==>
                && arr == old(arr) && nodes == old(nodes) && Packed(nodes[..], lastFree)
                && |Occupied(nodes[..])| ==
                   old(|Occupied(nodes[..])|) + if InArray(NormKey(key), arr.Length) then 0 else 1
      ensures !val.Nil? && NormKey(key) in old(m) ==>
                && arr == old(arr) && nodes == old(nodes) && gen == old(gen) && lastFree == old(lastFree)
                && chart == old(chart)
                && SamePlaces(old(arr[..]), old(nodes[..]), arr[..], nodes[..])
      decreases if Room(NormKey(key)) then 0 else 1, 2
    {
      hide HashOk, SamePlaces, KeepsSlots, StoredAs;
      SameSnapshot(Snapshot());
      WrittenIs(m, key, val);
      r := CheckKey(key);
      if r != Done {
        return;
      }
      var k := NormKey(key);
      if InArray(k, arr.Length) {
        ArrayMeaning(k.n - 1);
        SamePlacesArray(arr[..], nodes[..], k.n - 1, val);
        SetArraySlot(k, val);
        return;
      }
      var i := FindSlot(k);
      if i >= 0 {
        if val.Nil? {
          DeleteSlot(i);
        } else {
          SamePlacesNode(arr[..], nodes[..], i, val);
          SetSlotValue(i, val);
        }
        return;
      }
      if val.Nil? {
        return;
      }
      InsertNewKey(k, val);
      GenKept(old(Snapshot()), Snapshot());
    }

    method SetArraySlot(k: Value, val: Value)
      requires Valid() && InArray(k, arr.Length)
      modifies this`m, arr
      ensures Valid()
      ensures m == Written(old(m), k, val)
      ensures arr[..] == old(arr[..])[k.n - 1 := val]
      ensures KeepsSlots(old(Snapshot()), Snapshot())
    {
      hide TableOk;
      ArrayStep(Main(), arr[..], nodes[..], lastFree, chart, m, k, val);
      ghost var was := arr[..];
      arr[k.n - 1] := val;
      m := Written(m, k, val);
      assert arr[..] == was[k.n - 1 := val];
    }

    method SetSlotValue(i: int, val: Value)
      requires Valid() && 0 <= i < nodes.Length && !nodes[i].key.Nil? && !val.Nil?
      modifies this`m, nodes
      ensures Valid()
      ensures m == old(m)[old(nodes[i].key) := val]
      ensures nodes[..] == old(nodes[..])[i := old(nodes[i]).(val := val)]
      ensures KeepsSlots(old(Snapshot()), Snapshot())
    {
      hide TableOk;
      ValueStep(Main(), arr[..], nodes[..], lastFree, chart, m, i, val);
      ghost var was := nodes[..];
      nodes[i] := nodes[i].(val := val);
      m := m[nodes[i].key := val];
      assert nodes[..] == was[i := was[i].(val := val)];
    }

    /** Emptying a slot keeps its link. */
    method EmptySlot(i: int)
      requires Valid() && 0 <= i < nodes.Length && !nodes[i].key.Nil?
      modifies this`m, this`chart, nodes
      ensures Valid()
      ensures m == old(m) - {old(nodes[i].key)}
      ensures nodes[..] == old(nodes[..])[i := Node(Nil, Nil, old(nodes[i].next))]
    {
      hide TableOk;
      DeleteStep(Main(), arr[..], nodes[..], lastFree, chart, m, i);
      ghost var was := nodes[..];
      ghost var k := nodes[i].key;
      nodes[i] := Node(Nil, Nil, nodes[i].next);
      m := m - {k};
      chart := chart.(at := chart.at - {k});
      assert nodes[..] == was[i := Node(Nil, Nil, was[i].next)];
    }

    /** Deletion bumps the generation: the slot may be handed to another key. */
    method DeleteSlot(i: int)
      requires Valid() && 0 <= i < nodes.Length && !nodes[i].key.Nil?
      modifies this, nodes
      ensures meta == old(meta)
      ensures Valid() && arr == old(arr) && nodes == old(nodes)
      ensures m == old(m) - {old(nodes[i].key)}
      ensures gen == old(gen) + 1 && KeepsSlots(old(Snapshot()), Snapshot())
    {
      hide TableOk;
      EmptySlot(i);
      BumpGen();
    }

    /** A new metatable invalidates what was cached about this table. */
    method SetMeta(mt: nat)
      requires Valid()
      modifies this`meta, this`gen
      ensures Valid() && meta == mt && gen == old(gen) + 1
    {
      meta := mt;
      BumpGen();
    }

    /** The collector's sweep of a weak table: entries with a dead weak side go. Only references can
        be dead. Clearing a node is a deletion, so it bumps the generation; clearing an array slot
        needs no bump. */
    method ClearWeak(weakKey: bool, weakVal: bool, dead: Value -> bool)
      requires Valid()
      requires forall v :: dead(v) ==> v.Ref?
      modifies this, arr, nodes
      ensures meta == old(meta)
      ensures Valid() && arr == old(arr) && nodes == old(nodes)
      ensures m == Survivors(old(m), weakKey, weakVal, dead)
      ensures forall k :: k in m <==> k in old(m) && !(weakKey && dead(k)) && !(weakVal && dead(old(m)[k]))
      ensures forall k :: k in m ==> m[k] == old(m)[k]
      ensures KeepsSlots(old(Snapshot()), Snapshot())
    {
      hide TableOk;
      if weakVal {
        ClearWeakArray(dead);
      }
      ghost var m1 := m;
      var cleared := ClearWeakNodes(weakKey, weakVal, dead);
      if cleared {
        BumpGen();
      }
      AllAlive(weakKey, weakVal, dead);
      assert m == Survivors(old(m), weakKey, weakVal, dead);
    }

    method ClearWeakArray(dead: Value -> bool)
      requires Valid()
      requires forall v :: dead(v) ==> v.Ref?
      modifies this`m, arr
      ensures Valid()
      ensures forall k :: k in m ==> k in old(m) && m[k] == old(m)[k]
      ensures forall k :: k in old(m) && k !in m ==> dead(old(m)[k])
      ensures forall s :: 0 <= s < arr.Length ==> !dead(arr[s])
    {
      hide TableOk;
      for i := 0 to arr.Length
        invariant Valid()
        invariant forall k :: k in m ==> k in old(m) && m[k] == old(m)[k]
        invariant forall k :: k in old(m) && k !in m ==> dead(old(m)[k])
        invariant forall s :: 0 <= s < i ==> !dead(arr[s])
      {
        if dead(arr[i]) {
          ArrayMeaning(i);
          SetArraySlot(Int(i + 1), Nil);
        }
      }
    }

    method ClearWeakNodes(weakKey: bool, weakVal: bool, dead: Value -> bool) returns (cleared: bool)
      requires Valid()
      requires forall v :: dead(v) ==> v.Ref?
      modifies this`m, this`chart, nodes
      ensures Valid()
      ensures !cleared ==> nodes[..] == old(nodes[..])
      ensures forall k :: k in m ==> k in old(m) && m[k] == old(m)[k]
      ensures forall k :: k in old(m) && k !in m ==> (weakKey && dead(k)) || (weakVal && dead(old(m)[k]))
      ensures forall s :: 0 <= s < nodes.Length ==> !(weakKey && dead(nodes[s].key)) && !(weakVal && dead(nodes[s].val))
    {
      hide TableOk;
      cleared := false;
      for i := 0 to nodes.Length
        invariant Valid()
        invariant !cleared ==> nodes[..] == old(nodes[..])
        invariant forall k :: k in m ==> k in old(m) && m[k] == old(m)[k]
        invariant forall k :: k in old(m) && k !in m ==> (weakKey && dead(k)) || (weakVal && dead(old(m)[k]))
        invariant forall s :: 0 <= s < i ==> !(weakKey && dead(nodes[s].key)) && !(weakVal && dead(nodes[s].val))
      {
        if (weakKey && dead(nodes[i].key)) || (weakVal && dead(nodes[i].val)) {
          SlotMeaning(i);
          EmptySlot(i);
          cleared := true;
        }
      }
    }

    lemma NilAbsent()
      requires Valid()
      ensures Lookup(m, Nil) == Nil
    {
    }

    lemma ArrayMeaning(i: int)
      requires Valid() && 0 <= i < arr.Length
      ensures !arr[i].Nil? ==> Int(i + 1) in m && m[Int(i + 1)] == arr[i]
      ensures arr[i].Nil? ==> Int(i + 1) !in m
    {
      assert arr[..][i] == arr[i];
    }

    /** What a slot in use says about the map. */
    lemma SlotMeaning(i: int)
      requires Valid() && 0 <= i < nodes.Length
      ensures nodes[i].key.Nil? <==> nodes[i].val.Nil?
      ensures !nodes[i].key.Nil? ==>
        nodes[i].key in m && m[nodes[i].key] == nodes[i].val && IsKey(nodes[i].key)
          && !InArray(nodes[i].key, arr.Length)
    {
      assert nodes[..][i] == nodes[i];
    }

    lemma AllAlive(weakKey: bool, weakVal: bool, dead: Value -> bool)
      requires Valid()
      requires forall v :: dead(v) ==> v.Ref?
      requires weakVal ==> forall s :: 0 <= s < arr.Length ==> !dead(arr[s])
      requires forall s :: 0 <= s < nodes.Length ==>
        !(weakKey && dead(nodes[s].key)) && !(weakVal && dead(nodes[s].val))
      ensures forall k :: k in m ==> !(weakKey && dead(k)) && !(weakVal && dead(m[k]))
    {
      hide HashOk;
      forall k | k in m
        ensures !(weakKey && dead(k)) && !(weakVal && dead(m[k]))
      {
        if InArray(k, arr.Length) {
          var i := k.n - 1;
          assert Int(i + 1) == k && arr[..][i] == arr[i];
        } else {
          AtSlot(k);
        }
      }
    }

    lemma AtSlot(k: Value)
      requires Valid() && k in m && !InArray(k, arr.Length)
      ensures k in chart.at && 0 <= chart.at[k] < nodes.Length
      ensures nodes[chart.at[k]].key == k && nodes[chart.at[k]].val == m[k]
    {
      assert nodes[..][chart.at[k]] == nodes[chart.at[k]];
    }

    /** Scan down from the free cursor for a slot that is empty and ends its chain. */
    method FindFreeNode() returns (f: int, ok: bool)
      requires Valid()
      modifies this`lastFree
      ensures Valid()
      ensures ok ==> 0 <= f < nodes.Length && f < old(lastFree) && lastFree == f && IsFree(nodes[f])
      ensures ok ==> SkippedInUse(nodes[..], f, old(lastFree))
      ensures !ok ==>
        lastFree == old(lastFree) && forall i :: 0 <= i < nodes.Length && i < lastFree ==> !IsFree(nodes[i])
    {
      hide TableOk;
      f := if lastFree >= nodes.Length then nodes.Length else lastFree;
      while f > 0
        invariant 0 <= f <= nodes.Length && f <= lastFree == old(lastFree)
        invariant forall i :: f <= i < nodes.Length && i < lastFree ==> !IsFree(nodes[i])
      {
        f := f - 1;
        if IsFree(nodes[f]) {
          LowerCursor(Main(), arr[..], nodes[..], lastFree, chart, m, f);
          lastFree := f;
          return f, true;
        }
      }
      return 0, false;
    }

    method InsertNewKey(k: Value, val: Value)
      requires Valid() && IsKey(k) && !InArray(k, arr.Length) && k !in m && !val.Nil?
      modifies this, arr, nodes
      ensures meta == old(meta)
      ensures Valid()
      ensures arr == old(arr) || fresh(arr)
      ensures nodes == old(nodes) || fresh(nodes)
      ensures m == old(m)[k := val]
      ensures KeepsSlots(old(Snapshot()), Snapshot())
      ensures old(Room(k)) ==>
                && arr == old(arr) && nodes == old(nodes) && Packed(nodes[..], lastFree)
                && |Occupied(nodes[..])| == old(|Occupied(nodes[..])|) + 1
      decreases if Room(k) then 0 else 1, 1
    {
      hide TableOk;
      hide Packed;
      if nodes.Length == 0 {
        ghost var ks := Rehash(k);
        var r := RawSet(k, val);
        return;
      }
      var mainPos := hash(k) % nodes.Length;
      assert mainPos == Main()(k);
      if IsFree(nodes[mainPos]) {
        PlaceAtMain(mainPos, k, val);
        return;
      }
      ghost var cursor, c := lastFree, chart;
      var f, ok := FindFreeNode();
      if !ok {
        NoFreeNoRoom(Main(), arr[..], nodes[..], lastFree, chart, m);
        ghost var ks := Rehash(k);
        var r := RawSet(k, val);
        return;
      }
      var occ := nodes[mainPos].key;
      if !occ.Nil? && hash(occ) % nodes.Length != mainPos {
        RelocateOccupant(mainPos, f, k, val, cursor);
      } else {
        ChainBehind(mainPos, f, k, val, cursor);
      }
    }

    method PlaceAtMain(mainPos: nat, k: Value, val: Value)
      requires Valid() && nodes.Length > 0 && mainPos == Main()(k) && IsFree(nodes[mainPos])
      requires IsKey(k) && !InArray(k, arr.Length) && k !in m && !val.Nil?
      modifies this, nodes
      ensures meta == old(meta)
      ensures Valid() && arr == old(arr) && nodes == old(nodes)
      ensures m == old(m)[k := val]
      ensures KeepsSlots(old(Snapshot()), Snapshot())
      ensures Filled(old(nodes[..]), old(lastFree), nodes[..], lastFree)
    {
      hide TableOk, Filled;
      ghost var was := nodes[..];
      PlaceStep(Main(), arr[..], was, lastFree, chart, m, k, val);
      nodes[mainPos] := Node(k, val, -1);
      m := m[k := val];
      chart := chart.(at := chart.at[k := mainPos]);
      assert nodes[..] == was[mainPos := Node(k, val, -1)];
    }

    /** The occupant belongs elsewhere: move it to slot f, repoint its predecessor, take its slot.
        `cursor` is where the free cursor stood before it came down to f. */
    method RelocateOccupant(mainPos: nat, f: nat, k: Value, val: Value, ghost cursor: nat)
      requires Valid() && nodes.Length > 0 && mainPos == Main()(k)
      requires IsKey(k) && !InArray(k, arr.Length) && k !in m && !val.Nil?
      requires f < nodes.Length && f == lastFree < cursor && IsFree(nodes[f])
      requires TableOk(Main(), arr[..], nodes[..], cursor, chart, m)
      requires SkippedInUse(nodes[..], f, cursor)
      requires !nodes[mainPos].key.Nil? && Main()(nodes[mainPos].key) != mainPos
      modifies this, nodes
      ensures meta == old(meta)
      ensures Valid() && arr == old(arr) && nodes == old(nodes)
      ensures m == old(m)[k := val]
      ensures gen == old(gen) + 1
      ensures Filled(old(nodes[..]), cursor, nodes[..], lastFree)
    {
      hide TableOk, Filled, RelocatedChart;
      ghost var was := nodes[..];
      var prev := FindPredecessor(mainPos);
      assert was[prev].next == mainPos;
      RelocateStep(Main(), arr[..], was, cursor, chart, m, f, prev, k, val);
      nodes[f] := nodes[mainPos];
      nodes[prev] := nodes[prev].(next := f);
      nodes[mainPos] := Node(k, val, -1);
      BumpGen();
      m := m[k := val];
      chart := RelocatedChart(was, chart, mainPos, f, prev, k);
      assert nodes[..] == Relocated(was, mainPos, f, prev, k, val);
    }

    /** Walk from an occupant's own main slot to the slot whose link leads to it. */
    method FindPredecessor(mainPos: nat) returns (prev: int)
      requires Valid() && mainPos < nodes.Length
      requires !nodes[mainPos].key.Nil? && Main()(nodes[mainPos].key) != mainPos
      ensures 0 <= prev < nodes.Length && nodes[prev].next == mainPos
    {
      prev := hash(nodes[mainPos].key) % nodes.Length;
      assert prev == Main()(nodes[..][mainPos].key);
      while nodes[prev].next != mainPos
        invariant 0 <= prev < nodes.Length && prev != mainPos && mainPos in chart.reach[prev]
        decreases chart.reach[prev]
      {
        PredecessorStep(Main(), nodes[..], lastFree, chart, prev, mainPos);
        prev := nodes[prev].next;
      }
    }

    /** The occupant is at home, or gone: slot f takes the key and joins the chain behind it. */
    method ChainBehind(mainPos: nat, f: nat, k: Value, val: Value, ghost cursor: nat)
      requires Valid() && nodes.Length > 0 && mainPos == Main()(k) && !IsFree(nodes[mainPos])
      requires IsKey(k) && !InArray(k, arr.Length) && k !in m && !val.Nil?
      requires f < nodes.Length && f == lastFree < cursor && IsFree(nodes[f])
      requires TableOk(Main(), arr[..], nodes[..], cursor, chart, m)
      requires SkippedInUse(nodes[..], f, cursor)
      requires nodes[mainPos].key.Nil? || Main()(nodes[mainPos].key) == mainPos
      modifies this, nodes
      ensures meta == old(meta)
      ensures Valid() && arr == old(arr) && nodes == old(nodes)
      ensures m == old(m)[k := val]
      ensures KeepsSlots(old(Snapshot()), Snapshot())
      ensures Filled(old(nodes[..]), cursor, nodes[..], lastFree)
    {
      hide TableOk, Filled, ChainedChart;
      ghost var was := nodes[..];
      ChainStep(Main(), arr[..], was, cursor, chart, m, f, k, val);
      var mainNode := nodes[mainPos];
      nodes[f] := Node(k, val, mainNode.next);
      nodes[mainPos] := mainNode.(next := f);
      m := m[k := val];
      chart := ChainedChart(was, chart, mainPos, f, k);
      assert nodes[..] == Chained(was, mainPos, f, k, val);
    }

    /** All live pairs, array part first. */
    method CollectPairs() returns (all: seq<(Value, Value)>)
      requires Valid()
      ensures all == LivePairs(arr[..], nodes[..])
    {
      hide TableOk;
      all := [];
      for i := 0 to arr.Length
        invariant all == ArrayPairs(arr[..], i)
      {
        if !arr[i].Nil? {
          all := all + [(Int(i + 1), arr[i])];
        }
      }
      ghost var a := all;
      for i := 0 to nodes.Length
        invariant all == a + NodePairs(nodes[..], i)
      {
        SlotMeaning(i);
        if !nodes[i].key.Nil? && !nodes[i].val.Nil? {
          all := all + [(nodes[i].key, nodes[i].val)];
        }
      }
    }

    /** Re-split the parts for the keys held plus the incoming one, and reinsert. */
    method Rehash(extra: Value) returns (ghost ks: seq<Value>)
      requires Valid() && IsKey(extra) && extra !in m
      modifies this, arr, nodes
      ensures meta == old(meta)
      ensures Valid() && fresh(arr) && fresh(nodes)
      ensures m == old(m)
      ensures gen > old(gen)
      ensures Room(extra)
      ensures Distinct(ks) && (forall k :: k in ks <==> k in m || k == extra)
      ensures IsBestArraySize(ks, arr.Length)
      ensures arr.Length == 0 || (arr.Length in SIZES && HalfUsed(ks, arr.Length))
      ensures forall n :: n in SIZES && n > arr.Length ==> !HalfUsed(ks, n)
      decreases 1, 0, 1
    {
      hide TableOk, Packed, Occupied, Lists, HashCount, LivePairs, IsBestArraySize, MainOf, IsPow2, HalfUsed;
      var all := CollectPairs();
      PairsListed(Main(), arr[..], nodes[..], lastFree, chart, m);
      ghost var m0 := m;
      var keys := seq(|all|, i requires 0 <= i < |all| => all[i].0);
      ks := keys + [extra];
      KeysListed(all, m0, extra, ks);
      var asize := ChooseArraySize(keys + [extra]);
      BestIs(ks, asize);
      var nHash := CountHashKeys(all, extra, asize);
      var hsize := ChooseHashSize(nHash);
      arr := new Value[asize](_ => Nil);
      nodes := new Node[hsize](_ => EMPTY_NODE);
      lastFree := hsize;
      BumpGen();
      m := map[];
      chart := EmptyTableOk(Main(), arr[..], nodes[..], lastFree);
      Reinsert(all, extra, m0);
    }

    /** Put every pair back. The parts were sized for them and the incoming key, so none of these
        writes can rehash, and neither can the write of the incoming key. */
    method Reinsert(all: seq<(Value, Value)>, ghost extra: Value, ghost m0: map<Value, Value>)
      requires Valid() && m == map[] && Packed(nodes[..], lastFree) && Occupied(nodes[..]) == {}
      requires Lists(all, m0) && forall k :: k in m0 ==> IsKey(k) && !m0[k].Nil?
      requires var n := HashCount(all, |all|, arr.Length) + if InArray(extra, arr.Length) then 0 else 1;
        n == 0 || n < nodes.Length
      modifies this, arr, nodes
      ensures meta == old(meta)
      ensures Valid() && m == m0 && gen >= old(gen)
      ensures arr == old(arr) && nodes == old(nodes)
      ensures Room(extra)
      decreases 1, 0, 0
    {
      hide TableOk, Packed, Occupied, Lists, Written, Prefix, HashCount, KeepsSlots, MainOf;
      assert Prefix(all, 0) == map[] && HashCount(all, 0, arr.Length) == 0 by { ReinsertStart(all, arr.Length); }
      for j := 0 to |all|
        invariant Valid() && arr == old(arr) && nodes == old(nodes)
        invariant m == Prefix(all, j)
        invariant gen >= old(gen) && meta == old(meta)
        invariant Packed(nodes[..], lastFree)
        invariant |Occupied(nodes[..])| == HashCount(all, j, arr.Length)
      {
        ReinsertStep(all, m0, j, arr.Length);
        var r := RawSet(all[j].0, all[j].1);
      }
      PrefixAll(all, m0);
    }
  }

  method CountHashKeys(all: seq<(Value, Value)>, extra: Value, asize: nat) returns (n: nat)
    ensures n == HashCount(all, |all|, asize) + if InArray(extra, asize) then 0 else 1
  {
    n := |all| + 1;
    var inArray := 0;
    for i := 0 to |all|
      invariant inArray == i - HashCount(all, i, asize)
    {
      if InArray(all[i].0, asize) {
        inArray := inArray + 1;
      }
    }
    if InArray(extra, asize) {
      inArray := inArray + 1;
    }
    n := n - inArray;
  }

  lemma EmptyTableOk(main: Value -> nat, arr: seq<Value>, ns: seq<Node>, lastFree: nat) returns (c: Chart)
    requires forall i :: 0 <= i < |arr| ==> arr[i].Nil?
    requires forall i :: 0 <= i < |ns| ==> ns[i] == EMPTY_NODE
    requires |ns| > 0 ==> MainInRange(main, |ns|)
    ensures TableOk(main, arr, ns, lastFree, c, map[])
    ensures Occupied(ns) == {}
    ensures lastFree == |ns| ==> Packed(ns, lastFree)
  {
    c := EmptyNodesOk(main, ns, lastFree);
  }

  lemma PairsListed(main: Value -> nat, arr: seq<Value>, ns: seq<Node>, lastFree: nat, c: Chart, m: map<Value, Value>)
    requires TableOk(main, arr, ns, lastFree, c, m)
    ensures Lists(LivePairs(arr, ns), m)
    ensures forall k :: k in m ==> IsKey(k) && !m[k].Nil?
  {
    LivePairsListed(arr, ns, c.at, m);
  }

  lemma NoFreeNoRoom(main: Value -> nat, arr: seq<Value>, ns: seq<Node>, lastFree: nat, c: Chart, m: map<Value, Value>)
    requires TableOk(main, arr, ns, lastFree, c, m)
    requires forall i :: 0 <= i < |ns| && i < lastFree ==> !IsFree(ns[i])
    ensures !(Packed(ns, lastFree) && |Occupied(ns)| < |ns|)
  {
    if Packed(ns, lastFree) && |Occupied(ns)| < |ns| { RoomMeansFree(ns, lastFree); }
  }

  lemma ReinsertStart(all: seq<(Value, Value)>, asize: nat)
    ensures Prefix(all, 0) == map[] && HashCount(all, 0, asize) == 0
  {
  }

  lemma ReinsertStep(all: seq<(Value, Value)>, m: map<Value, Value>, j: nat, asize: nat)
    requires Lists(all, m) && j < |all|
    requires forall k :: k in m ==> IsKey(k) && !m[k].Nil?
    ensures var k, v := all[j].0, all[j].1;
      && IsKey(k) && !v.Nil? && k !in Prefix(all, j)
      && Prefix(all, j + 1) == Written(Prefix(all, j), k, v)
    ensures HashCount(all, j + 1, asize) == HashCount(all, j, asize) + if InArray(all[j].0, asize) then 0 else 1
    ensures HashCount(all, j + 1, asize) <= HashCount(all, |all|, asize)
  {
    PrefixKeys(all, m, j);
    HashCountMonotone(all, j + 1, |all|, asize);
  }

  lemma KeysListed(all: seq<(Value, Value)>, m: map<Value, Value>, extra: Value, ks: seq<Value>)
    requires Lists(all, m) && extra !in m
    requires |ks| == |all| + 1 && ks[|all|] == extra && forall i :: 0 <= i < |all| ==> ks[i] == all[i].0
    ensures Distinct(ks) && forall k :: k in ks <==> k in m || k == extra
  {
    forall k | k in m ensures k in ks {
      assert HasKey(all, k);
      var i :| 0 <= i < |all| && all[i].0 == k;
      assert ks[i] == k;
    }
  }
}
