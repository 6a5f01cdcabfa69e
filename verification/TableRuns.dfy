/** Traversal, border and whole runs of a table (internal/crescent/rawtable.go:411-493, 10-20). */
module TableRuns {
  import opened Values
  import opened NodeChains
  import opened RawTable

  // ---- next ----

  datatype NextResult = Pair(k: Value, v: Value) | Exhausted | InvalidKey

  function NextAt(all: seq<(Value, Value)>, rank: nat): NextResult {
    if rank < |all| then Pair(all[rank].0, all[rank].1) else Exhausted
  }

  /** How many live pairs the traversal meets up to and including a key's place. */
  ghost function Rank(arr: seq<Value>, ns: seq<Node>, at: map<Value, int>, k: Value): nat
    requires InArray(k, |arr|) || (k in at && 0 <= at[k] < |ns|)
  {
    if InArray(k, |arr|) then |ArrayPairs(arr, k.n)|
    else |ArrayPairs(arr, |arr|)| + |NodePairs(ns, at[k] + 1)|
  }

  lemma {:induction false} ArrayPairsPrefix(arr: seq<Value>, i: nat, n: nat)
    requires i <= n <= |arr|
    ensures ArrayPairs(arr, i) <= ArrayPairs(arr, n)
  {
    if i < n { ArrayPairsPrefix(arr, i, n - 1); }
  }

  lemma ArrayPairAt(arr: seq<Value>, ns: seq<Node>, i: nat)
    requires i < |arr| && !arr[i].Nil?
    ensures NextAt(LivePairs(arr, ns), |ArrayPairs(arr, i)|) == Pair(Int(i + 1), arr[i])
  {
    ArrayPairsPrefix(arr, i + 1, |arr|);
    assert ArrayPairs(arr, i + 1)[|ArrayPairs(arr, i)|] == (Int(i + 1), arr[i]);
  }

  /** A slot in use has its place among the pairs of the nodes. */
  lemma {:induction false} NodePairIn(ns: seq<Node>, i: nat, n: nat)
    requires i < n <= |ns| && !ns[i].key.Nil?
    ensures |NodePairs(ns, i)| < |NodePairs(ns, n)|
    ensures NodePairs(ns, n)[|NodePairs(ns, i)|] == (ns[i].key, ns[i].val)
  {
    if i < n - 1 { NodePairIn(ns, i, n - 1); }
  }

  lemma NodePairAt(arr: seq<Value>, ns: seq<Node>, i: nat)
    requires i < |ns| && !ns[i].key.Nil?
    ensures NextAt(LivePairs(arr, ns), |ArrayPairs(arr, |arr|)| + |NodePairs(ns, i)|) == Pair(ns[i].key, ns[i].val)
  {
    NodePairIn(ns, i, |ns|);
    hide NodePairs, ArrayPairs;
  }

  /** The first slot in use past so many places, array slots first and nodes then, or that there is none. */
  ghost predicate FirstPast(arr: seq<Value>, ns: seq<Node>, past: nat, r: NextResult) {
    match r
    case Pair(k, v) =>
      || (exists i :: past <= i < |arr| && k == Int(i + 1) && v == arr[i] && !v.Nil? && NoneUsed(arr, ns, past, i))
      || (exists i: nat :: i < |ns| && past <= |arr| + i && k == ns[i].key && v == ns[i].val && !k.Nil? && !v.Nil?
            && NoneUsed(arr, ns, past, |arr| + i))
    case Exhausted => NoneUsed(arr, ns, past, |arr| + |ns|)
    case InvalidKey => false
  }

  ghost predicate NoneUsed(arr: seq<Value>, ns: seq<Node>, from: nat, to: nat) {
    && (forall i :: from <= i < |arr| && i < to ==> arr[i].Nil?)
    && (forall i :: 0 <= i < |ns| && from <= |arr| + i < to ==> ns[i].key.Nil? || ns[i].val.Nil?)
  }

  /** The key following `key` in traversal order; a nil key asks for the first. */
  method RawNext(t: RawTable, key: Value) returns (r: NextResult)
    requires t.Valid()
    ensures key.Nil? ==> r == NextAt(LivePairs(t.arr[..], t.nodes[..]), 0)
    ensures var k := NormKey(key);
      !key.Nil? && !InArray(k, t.arr.Length) && k !in t.m ==> r == InvalidKey
    ensures var k := NormKey(key);
      !key.Nil? && (InArray(k, t.arr.Length) || k in t.m) ==>
        && (InArray(k, t.arr.Length) || (k in t.chart.at && 0 <= t.chart.at[k] < t.nodes.Length))
        && r == NextAt(LivePairs(t.arr[..], t.nodes[..]), Rank(t.arr[..], t.nodes[..], t.chart.at, k))
    ensures var k := if key.NegZero? then Int(0) else key;
      var past := if key.Nil? then 0 else if k.Int? && 1 <= k.n <= t.arr.Length then k.n
                  else if k in t.chart.at then t.arr.Length + t.chart.at[k] + 1 else 0;
      r.InvalidKey? || FirstPast(t.arr[..], t.nodes[..], past, r)
  {
    hide TableOk, FirstPast, LivePairs, ArrayPairs, NodePairs, NextAt;
    var startArr, startNode, inHash := 0, 0, false;
    if !key.Nil? {
      var k := NormKey(key);
      if InArray(k, t.arr.Length) {
        startArr := k.n;
      } else {
        var i := t.FindSlot(k);
        if i < 0 {
          return InvalidKey;
        }
        t.AtSlot(k);
        startNode, inHash := i + 1, true;
      }
    }
    assert key.Nil? ==> |ArrayPairs(t.arr[..], 0)| == 0 by { NoPairs(t.arr[..]); }
    r := NextFrom(t, startArr, startNode, inHash);
  }

  lemma NoPairs(arr: seq<Value>)
    ensures ArrayPairs(arr, 0) == []
  {
  }

  /** The scan from a place on: the rest of the array part unless it starts in the nodes, then the nodes. */
  method NextFrom(t: RawTable, startArr: nat, startNode: nat, inHash: bool) returns (r: NextResult)
    requires t.Valid() && startArr <= t.arr.Length && startNode <= t.nodes.Length && (!inHash ==> startNode == 0)
    ensures var arr, ns := t.arr[..], t.nodes[..];
      var rank := if inHash then |ArrayPairs(arr, |arr|)| + |NodePairs(ns, startNode)| else |ArrayPairs(arr, startArr)|;
      r == NextAt(LivePairs(arr, ns), rank)
    ensures FirstPast(t.arr[..], t.nodes[..], if inHash then t.arr.Length + startNode else startArr, r)
  {
    hide TableOk, FirstPast;
    assert |LivePairs(t.arr[..], t.nodes[..])| ==
      |ArrayPairs(t.arr[..], t.arr.Length)| + |NodePairs(t.nodes[..], t.nodes.Length)|;
    assert NodePairs(t.nodes[..], 0) == [];
    hide LivePairs, ArrayPairs, NodePairs;
    var arr, ns := t.arr[..], t.nodes[..];
    if !inHash {
      var i := NextInArray(t, startArr);
      if i < t.arr.Length {
        ArrayPairAt(arr, ns, i);
        FoundInArray(arr, ns, startArr, i);
        return Pair(Int(i + 1), t.arr[i]);
      }
    }
    var i := NextInNodes(t, startNode);
    FoundInNodes(arr, ns, if inHash then |arr| + startNode else startArr, startNode, i);
    if i < t.nodes.Length {
      NodePairAt(arr, ns, i);
      return Pair(t.nodes[i].key, t.nodes[i].val);
    }
    return Exhausted;
  }

  lemma FoundInArray(arr: seq<Value>, ns: seq<Node>, start: nat, i: nat)
    requires start <= i < |arr| && !arr[i].Nil? && forall j :: start <= j < i ==> arr[j].Nil?
    ensures FirstPast(arr, ns, start, Pair(Int(i + 1), arr[i]))
  {
    assert NoneUsed(arr, ns, start, i);
  }

  lemma FoundInNodes(arr: seq<Value>, ns: seq<Node>, past: nat, start: nat, i: nat)
    requires start <= i <= |ns| && (past == |arr| + start || (past <= |arr| && start == 0))
    requires forall j :: past <= j < |arr| ==> arr[j].Nil?
    requires forall j :: start <= j < i ==> ns[j].key.Nil? || ns[j].val.Nil?
    requires i < |ns| ==> !ns[i].key.Nil? && !ns[i].val.Nil?
    ensures FirstPast(arr, ns, past, if i < |ns| then Pair(ns[i].key, ns[i].val) else Exhausted)
  {
    assert NoneUsed(arr, ns, past, |arr| + i);
  }

  /** The first array slot in use from `start` on, or the end. */
  method NextInArray(t: RawTable, start: nat) returns (i: nat)
    requires t.Valid() && start <= t.arr.Length
    ensures start <= i <= t.arr.Length && (i < t.arr.Length ==> !t.arr[i].Nil?)
    ensures forall j :: start <= j < i ==> t.arr[j].Nil?
    ensures |ArrayPairs(t.arr[..], i)| == |ArrayPairs(t.arr[..], start)|
  {
    hide TableOk;
    i := start;
    while i < t.arr.Length
      invariant start <= i <= t.arr.Length
      invariant forall j :: start <= j < i ==> t.arr[j].Nil?
      invariant |ArrayPairs(t.arr[..], i)| == |ArrayPairs(t.arr[..], start)|
    {
      if !t.arr[i].Nil? {
        return;
      }
      i := i + 1;
    }
  }

  method NextInNodes(t: RawTable, start: nat) returns (i: nat)
    requires t.Valid() && start <= t.nodes.Length
    ensures start <= i <= t.nodes.Length && (i < t.nodes.Length ==> !t.nodes[i].key.Nil? && !t.nodes[i].val.Nil?)
    ensures forall j :: start <= j < i ==> t.nodes[j].key.Nil? || t.nodes[j].val.Nil?
    ensures |NodePairs(t.nodes[..], i)| == |NodePairs(t.nodes[..], start)|
  {
    hide TableOk;
    i := start;
    while i < t.nodes.Length
      invariant start <= i <= t.nodes.Length
      invariant forall j :: start <= j < i ==> t.nodes[j].key.Nil? || t.nodes[j].val.Nil?
      invariant |NodePairs(t.nodes[..], i)| == |NodePairs(t.nodes[..], start)|
    {
      t.SlotMeaning(i);
      if !t.nodes[i].key.Nil? && !t.nodes[i].val.Nil? {
        return;
      }
      i := i + 1;
    }
  }

  /** The j-th live pair's key has rank j + 1, so asking for its successor yields pair j + 1. */
  lemma RankOfPair(arr: seq<Value>, ns: seq<Node>, at: map<Value, int>, m: map<Value, Value>, j: nat)
    requires Agree(arr, ns, at, m)
    requires forall i :: 0 <= i < |ns| && !ns[i].key.Nil? ==> ns[i].key in at && at[ns[i].key] == i
    requires forall k :: k in at ==> 0 <= at[k] < |ns| && ns[at[k]].key == k && !k.Nil?
    requires j < |LivePairs(arr, ns)|
    ensures var k := LivePairs(arr, ns)[j].0;
      && k in m && (InArray(k, |arr|) || (k in at && 0 <= at[k] < |ns|))
      && Rank(arr, ns, at, k) == j + 1
  {
    var all := LivePairs(arr, ns);
    LivePairsListed(arr, ns, at, m);
    var k := all[j].0;
    if InArray(k, |arr|) {
      var i := k.n - 1;
      assert !arr[i].Nil? by { assert Int(i + 1) in m; }
      ArrayPairAt(arr, ns, i);
      SameRank(all, j, |ArrayPairs(arr, i)|);
    } else {
      assert k in m && k in at;
      NodePairAt(arr, ns, at[k]);
      SameRank(all, j, |ArrayPairs(arr, |arr|)| + |NodePairs(ns, at[k])|);
    }
  }

  lemma SameRank(all: seq<(Value, Value)>, i: nat, j: nat)
    requires KeysDiffer(all) && i < |all|
    requires NextAt(all, j).Pair? && NextAt(all, j).k == all[i].0
    ensures i == j
  {
  }

  /** The traversal order of keys depends on the places alone. */
  lemma {:induction false} SameArrayKeys(arr: seq<Value>, arr': seq<Value>, n: nat)
    requires n <= |arr| == |arr'| && forall i :: 0 <= i < |arr| ==> (arr'[i].Nil? <==> arr[i].Nil?)
    ensures |ArrayPairs(arr', n)| == |ArrayPairs(arr, n)|
    ensures forall i :: 0 <= i < |ArrayPairs(arr, n)| ==> ArrayPairs(arr', n)[i].0 == ArrayPairs(arr, n)[i].0
  {
    if n > 0 { SameArrayKeys(arr, arr', n - 1); }
  }

  lemma {:induction false} SameNodeKeys(ns: seq<Node>, ns': seq<Node>, n: nat)
    requires n <= |ns| == |ns'| && forall i :: 0 <= i < |ns| ==> ns'[i].key == ns[i].key
    ensures |NodePairs(ns', n)| == |NodePairs(ns, n)|
    ensures forall i :: 0 <= i < |NodePairs(ns, n)| ==> NodePairs(ns', n)[i].0 == NodePairs(ns, n)[i].0
  {
    if n > 0 { SameNodeKeys(ns, ns', n - 1); }
  }

  lemma SameKeyOrder(arr: seq<Value>, ns: seq<Node>, arr': seq<Value>, ns': seq<Node>)
    requires SamePlaces(arr, ns, arr', ns')
    ensures KeysOf(LivePairs(arr', ns')) == KeysOf(LivePairs(arr, ns))
  {
    SameArrayKeys(arr, arr', |arr|);
    SameNodeKeys(ns, ns', |ns|);
  }

  function KeysOf(all: seq<(Value, Value)>): (ks: seq<Value>)
    ensures |ks| == |all|
  {
    seq(|all|, i requires 0 <= i < |all| => all[i].0)
  }

  /** Writes that only give present keys other values. */
  predicate OverwritesOnly(keys: set<Value>, ws: Writes) {
    forall i :: 0 <= i < |ws| ==> NormKey(ws[i].0) in keys && !ws[i].1.Nil?
  }

  /** What a program writes between a step of the traversal and the next. */
  function Between(during: seq<Writes>, j: nat): Writes {
    if j < |during| then during[j] else []
  }

  /** The map when the traversal reaches its j-th pair. */
  ghost function MapAt(m: map<Value, Value>, during: seq<Writes>, j: nat): map<Value, Value> {
    if j == 0 then m else WrittenAll(MapAt(m, during, j - 1), Between(during, j - 1))
  }

  /** Overwriting the values of present keys moves nothing. */
  method Overwrite(t: RawTable, ws: Writes)
    requires t.Valid() && OverwritesOnly(t.m.Keys, ws)
    modifies t, t.arr, t.nodes
    ensures t.Valid() && t.arr == old(t.arr) && t.nodes == old(t.nodes) && t.gen == old(t.gen)
    ensures t.m == WrittenAll(old(t.m), ws) && t.m.Keys == old(t.m).Keys
    ensures KeysOf(LivePairs(t.arr[..], t.nodes[..])) == KeysOf(LivePairs(old(t.arr[..]), old(t.nodes[..])))
  {
    hide TableOk, LivePairs, KeysOf, SamePlaces, KeepsSlots;
    for i := 0 to |ws|
      invariant t.Valid() && t.arr == old(t.arr) && t.nodes == old(t.nodes) && t.gen == old(t.gen)
      invariant t.m == WrittenAll(old(t.m), ws[..i]) && t.m.Keys == old(t.m).Keys
      invariant KeysOf(LivePairs(t.arr[..], t.nodes[..])) == KeysOf(LivePairs(old(t.arr[..]), old(t.nodes[..])))
    {
      ghost var arr, ns, m := t.arr[..], t.nodes[..], t.m;
      NilNotHeld(t);
      var r := t.RawSet(ws[i].0, ws[i].1);
      SameKeyOrder(arr, ns, t.arr[..], t.nodes[..]);
      PresentWritten(m, ws[i].0, ws[i].1);
      assert ws[..i + 1][..i] == ws[..i];
    }
    assert ws[..|ws|] == ws;
  }

  lemma PresentWritten(m: map<Value, Value>, key: Value, val: Value)
    requires NormKey(key) in m && !val.Nil? && IsKey(NormKey(key))
    ensures Written(m, key, val).Keys == m.Keys
  {
    assert CheckKey(key) == Done;
  }

  /** Feeding each key back into `RawNext` until it reports the end, while the program may give
      present keys other values between the steps: every key of the table is met exactly once, array
      indices ascending, then slots ascending, each with the value it has when it is met. */
  method Traverse(t: RawTable, during: seq<Writes>) returns (visited: seq<(Value, Value)>)
    requires t.Valid() && forall i :: 0 <= i < |during| ==> OverwritesOnly(t.m.Keys, during[i])
    modifies t, t.arr, t.nodes
    ensures t.Valid() && t.m.Keys == old(t.m).Keys
    ensures KeysOf(visited) == KeysOf(LivePairs(old(t.arr[..]), old(t.nodes[..])))
    ensures forall i, j :: 0 <= i < j < |visited| ==> visited[i].0 != visited[j].0
    ensures forall k :: k in old(t.m) <==> exists i :: 0 <= i < |visited| && visited[i].0 == k
    ensures MetWith(visited, old(t.m), during)
    ensures t.m == MapAt(old(t.m), during, |visited|)
  {
    hide TableOk, LivePairs, Lists, KeysOf, WrittenAll, OverwritesOnly, MapAt, NextAt, Rank, KeysDiffer, HasKey;
    hide Between, MetWith;
    ghost var keys, m0 := KeysOf(LivePairs(t.arr[..], t.nodes[..])), t.m;
    ListedOnce(t);
    MapStart(m0, during);
    visited := [];
    var r := RawNext(t, Nil);
    while r.Pair?
      invariant t.Valid() && t.arr == old(t.arr) && t.nodes == old(t.nodes) && t.m.Keys == m0.Keys
      invariant KeysOf(LivePairs(t.arr[..], t.nodes[..])) == keys
      invariant |visited| <= |keys| && KeysOf(visited) == keys[..|visited|]
      invariant r == NextAt(LivePairs(t.arr[..], t.nodes[..]), |visited|)
      invariant MetWith(visited, m0, during)
      invariant t.m == MapAt(m0, during, |visited|)
      decreases |keys| - |visited|
    {
      ghost var j := |visited|;
      PairMet(t, keys, j);
      KeysSnoc(visited, keys, (r.k, r.v));
      var ws := Between(during, |visited|);
      MetNext(visited, m0, during, (r.k, r.v));
      BetweenOverwrites(m0.Keys, during, j);
      visited := visited + [(r.k, r.v)];
      Overwrite(t, ws);
      MapNext(m0, during, j);
      PairMet(t, keys, j);
      r := RawNext(t, r.k);
    }
    PairMet(t, keys, |visited|);
    assert keys[..|visited|] == keys;
    MetOnce(visited, keys, m0);
    OnceEach(visited, m0);
  }

  lemma OnceEach(visited: seq<(Value, Value)>, m: map<Value, Value>)
    requires KeysDiffer(visited) && forall k :: k in m <==> HasKey(visited, k)
    ensures forall i, j :: 0 <= i < j < |visited| ==> visited[i].0 != visited[j].0
    ensures forall k :: k in m <==> exists i :: 0 <= i < |visited| && visited[i].0 == k
  {
    forall k ensures k in m <==> exists i :: 0 <= i < |visited| && visited[i].0 == k {
      assert k in m <==> HasKey(visited, k);
    }
  }

  lemma BetweenOverwrites(keys: set<Value>, during: seq<Writes>, j: nat)
    requires forall i :: 0 <= i < |during| ==> OverwritesOnly(keys, during[i])
    ensures OverwritesOnly(keys, Between(during, j))
  {
  }

  /** Each pair has the value its key had when it was met. */
  ghost predicate MetWith(visited: seq<(Value, Value)>, m: map<Value, Value>, during: seq<Writes>) {
    forall j :: 0 <= j < |visited| ==> Holds(MapAt(m, during, j), visited[j])
  }

  predicate Holds(m: map<Value, Value>, p: (Value, Value)) {
    p.0 in m && m[p.0] == p.1
  }

  lemma MetNext(visited: seq<(Value, Value)>, m: map<Value, Value>, during: seq<Writes>, p: (Value, Value))
    requires MetWith(visited, m, during) && Holds(MapAt(m, during, |visited|), p)
    ensures MetWith(visited + [p], m, during)
  {
    hide Holds, MapAt;
  }

  lemma MapStart(m: map<Value, Value>, during: seq<Writes>)
    ensures MapAt(m, during, 0) == m && MetWith([], m, during)
  {
  }

  lemma MapNext(m: map<Value, Value>, during: seq<Writes>, j: nat)
    ensures MapAt(m, during, j + 1) == WrittenAll(MapAt(m, during, j), Between(during, j))
  {
  }

  lemma KeysSnoc(visited: seq<(Value, Value)>, keys: seq<Value>, p: (Value, Value))
    requires |visited| < |keys| && KeysOf(visited) == keys[..|visited|] && keys[|visited|] == p.0
    ensures KeysOf(visited + [p]) == keys[..|visited| + 1]
  {
  }

  /** Before a traversal: its keys are those of the map, once each. */
  lemma ListedOnce(t: RawTable)
    requires t.Valid()
    ensures var keys := KeysOf(LivePairs(t.arr[..], t.nodes[..]));
      (forall i, j :: 0 <= i < j < |keys| ==> keys[i] != keys[j]) && forall k :: k in keys <==> k in t.m
  {
    var all := LivePairs(t.arr[..], t.nodes[..]);
    PairsListed(t.Main(), t.arr[..], t.nodes[..], t.lastFree, t.chart, t.m);
    forall k | k in t.m ensures k in KeysOf(all) {
      assert HasKey(all, k);
      var i :| 0 <= i < |all| && all[i].0 == k;
      assert KeysOf(all)[i] == k;
    }
  }

  lemma MetOnce(visited: seq<(Value, Value)>, keys: seq<Value>, m: map<Value, Value>)
    requires KeysOf(visited) == keys
    requires (forall i, j :: 0 <= i < j < |keys| ==> keys[i] != keys[j]) && forall k :: k in keys <==> k in m
    ensures KeysDiffer(visited) && forall k :: k in m <==> HasKey(visited, k)
  {
    forall i | 0 <= i < |visited| ensures keys[i] == visited[i].0 {
    }
    forall k | k in m ensures HasKey(visited, k) {
      var i :| 0 <= i < |keys| && keys[i] == k;
      assert visited[i].0 == k;
    }
  }

  /** The pair at rank j is the j-th key with its value, and its key has rank j + 1. */
  lemma PairMet(t: RawTable, keys: seq<Value>, j: nat)
    requires t.Valid() && keys == KeysOf(LivePairs(t.arr[..], t.nodes[..]))
    ensures j < |keys| <==> NextAt(LivePairs(t.arr[..], t.nodes[..]), j).Pair?
    ensures j < |keys| ==>
      var r, k := NextAt(LivePairs(t.arr[..], t.nodes[..]), j), keys[j];
      && r.k == k && k in t.m && r.v == t.m[k] && IsKey(k) && NormKey(k) == k
      && (InArray(k, t.arr.Length) || (k in t.chart.at && 0 <= t.chart.at[k] < t.nodes.Length))
      && Rank(t.arr[..], t.nodes[..], t.chart.at, k) == j + 1
  {
    if j < |keys| {
      NextPairKey(t, j);
      PairsListed(t.Main(), t.arr[..], t.nodes[..], t.lastFree, t.chart, t.m);
    }
  }

  lemma NextPairKey(t: RawTable, j: nat)
    requires t.Valid() && j < |LivePairs(t.arr[..], t.nodes[..])|
    ensures var k := LivePairs(t.arr[..], t.nodes[..])[j].0;
      && k in t.m && IsKey(k)
      && (InArray(k, t.arr.Length) || (k in t.chart.at && 0 <= t.chart.at[k] < t.nodes.Length))
      && Rank(t.arr[..], t.nodes[..], t.chart.at, k) == j + 1
  {
    RankOfPair(t.arr[..], t.nodes[..], t.chart.at, t.m, j);
  }

  // ---- the length operator ----

  /** A border: 0 or the index of a non-nil element, followed by a nil one. */
  ghost predicate IsBorder(m: map<Value, Value>, n: nat) {
    (n > 0 ==> Int(n) in m) && Int(n + 1) !in m
  }

  method RawBorder(t: RawTable) returns (n: nat)
    requires t.Valid()
    ensures IsBorder(t.m, n)
  {
    hide TableOk;
    var asize := t.arr.Length;
    if asize > 0 && t.arr[asize - 1].Nil? {
      var lo, hi := 0, asize;
      while hi - lo > 1
        invariant 0 <= lo < hi <= asize
        invariant lo > 0 ==> !t.arr[lo - 1].Nil?
        invariant t.arr[hi - 1].Nil?
      {
        var mid := (lo + hi) / 2;
        if t.arr[mid - 1].Nil? {
          hi := mid;
        } else {
          lo := mid;
        }
      }
      t.ArrayMeaning(lo);
      if lo > 0 { t.ArrayMeaning(lo - 1); }
      return lo;
    }
    n := asize;
    if asize > 0 { t.ArrayMeaning(asize - 1); }
    ghost var probed: set<Value> := {};
    while true
      invariant n > 0 ==> Int(n) in t.m
      invariant probed <= t.m.Keys && forall k :: k in probed ==> k.Int? && k.n <= n
      decreases t.m.Keys - probed
    {
      NilNotHeld(t);
      var v := t.RawGet(Int(n + 1));
      if v.Nil? {
        return;
      }
      n := n + 1;
      probed := probed + {Int(n)};
    }
  }

  lemma NilNotHeld(t: RawTable)
    requires t.Valid()
    ensures forall k :: k in t.m ==> IsKey(k) && !t.m[k].Nil?
  {
  }

  // ---- runs ----

  type Writes = seq<(Value, Value)>

  ghost function WrittenAll(m: map<Value, Value>, ws: Writes): map<Value, Value> {
    if ws == [] then m
    else Written(WrittenAll(m, ws[..|ws| - 1]), ws[|ws| - 1].0, ws[|ws| - 1].1)
  }

  /** Everything that changes a table: writes, a new metatable, and the collector's sweep of a weak
      table when the objects in `gone` died. */
  datatype Change =
    | Store(key: Value, val: Value)
    | NewMeta(mt: nat)
    | SweepWeak(weakKey: bool, weakVal: bool, gone: set<nat>)

  ghost function Changed(m: map<Value, Value>, c: Change): map<Value, Value> {
    match c
    case Store(key, val) => Written(m, key, val)
    case NewMeta(_) => m
    case SweepWeak(weakKey, weakVal, gone) => Survivors(m, weakKey, weakVal, DeadIn(gone))
  }

  ghost function ChangedAll(m: map<Value, Value>, cs: seq<Change>): map<Value, Value> {
    if cs == [] then m else Changed(ChangedAll(m, cs[..|cs| - 1]), cs[|cs| - 1])
  }

  /** A write to `at` is read under `key`: the same key, or both zeros; nothing is written to nil or NaN. */
  predicate Reaches(at: Value, key: Value) {
    !at.Nil? && !at.NaN? && (at == key || ((at.NegZero? || at == Int(0)) && (key.NegZero? || key == Int(0))))
  }

  /** m' is m after the change, told key by key. */
  ghost predicate HappenedAs(m: map<Value, Value>, c: Change, m': map<Value, Value>) {
    match c
    case Store(key, val) => StoredAs(m, key, val, m')
    case NewMeta(_) => m' == m
    case SweepWeak(weakKey, weakVal, gone) =>
      && (forall k :: k in m' <==>
            k in m && !(weakKey && k.Ref? && k.ref in gone) && !(weakVal && m[k].Ref? && m[k].ref in gone))
      && (forall k :: k in m' ==> m'[k] == m[k])
  }

  lemma ChangedIs(m: map<Value, Value>, c: Change)
    ensures HappenedAs(m, c, Changed(m, c))
  {
    if c.Store? { WrittenIs(m, c.key, c.val); }
  }

  /** What is read under `key` after changes, followed for that key alone: the value of the last write
      that reached it, `start` if none did, nil once a sweep took it. */
  function LastWritten(cs: seq<Change>, key: Value, start: Value): Value {
    if cs == [] then start
    else
      var v, c := LastWritten(cs[..|cs| - 1], key, start), cs[|cs| - 1];
      if c.Store? then (if Reaches(c.key, key) then c.val else v)
      else if c.SweepWeak? then
        (if (c.weakKey && key.Ref? && key.ref in c.gone) || (c.weakVal && v.Ref? && v.ref in c.gone) then Nil else v)
      else v
  }

  /** Reading any key after any changes gives the last value written to it. */
  lemma {:induction false} LastWriteWins(m: map<Value, Value>, cs: seq<Change>, key: Value)
    requires forall k :: k in m ==> !m[k].Nil?
    ensures Lookup(ChangedAll(m, cs), key) == LastWritten(cs, key, Lookup(m, key))
  {
    if cs != [] {
      LastWriteWins(m, cs[..|cs| - 1], key);
    }
  }

  /** The generation is stored in 32 bits. */
  const GEN_SPAN: nat := 0x1_0000_0000

  /** A table at one moment of a run. */
  datatype Moment = Moment(shape: Shape, m: map<Value, Value>)

  ghost function MomentOf(t: RawTable): Moment
    reads t, t.nodes
  {
    Moment(t.Snapshot(), t.m)
  }

  /** Slots in use hold what the map says. */
  ghost predicate SlotsAgree(w: Moment) {
    forall i :: 0 <= i < |w.shape.ns| && !w.shape.ns[i].key.Nil? ==>
      var k := w.shape.ns[i].key;
      NormKey(k) == k && k in w.m && w.m[k] == w.shape.ns[i].val
  }

  /** The generation contract between an earlier and a later moment: when the table shows the same
      stored generation and fewer than 2^32 bumps lie between, the parts have the same sizes, and every
      slot in use then holds its key still, with the value a full lookup gives now. */
  ghost predicate StillAnswers(before: Moment, after: Moment) {
    var g, g' := before.shape.gen, after.shape.gen;
    g % GEN_SPAN == g' % GEN_SPAN && g' < g + GEN_SPAN ==>
      && after.shape.asize == before.shape.asize && |after.shape.ns| == |before.shape.ns|
      && forall i :: 0 <= i < |before.shape.ns| && !before.shape.ns[i].key.Nil? ==>
           after.shape.ns[i].key == before.shape.ns[i].key
             && after.shape.ns[i].val == Lookup(after.m, before.shape.ns[i].key)
  }

  lemma SlotStillAnswers(before: Moment, after: Moment)
    requires KeepsSlots(before.shape, after.shape) && SlotsAgree(after)
    ensures StillAnswers(before, after)
  {
    var g, g' := before.shape.gen, after.shape.gen;
    if g % GEN_SPAN == g' % GEN_SPAN && g' < g + GEN_SPAN {
      assert g == g';
      forall i | 0 <= i < |before.shape.ns| && !before.shape.ns[i].key.Nil?
        ensures after.shape.ns[i].key == before.shape.ns[i].key
        ensures after.shape.ns[i].val == Lookup(after.m, before.shape.ns[i].key)
      {
        assert !after.shape.ns[i].key.Nil?;
      }
    }
  }

  lemma SlotsMeanMap(t: RawTable)
    requires t.Valid()
    ensures SlotsAgree(MomentOf(t))
  {
    hide TableOk;
    forall i | 0 <= i < t.nodes.Length && !t.nodes[i].key.Nil?
      ensures var k := t.nodes[i].key; NormKey(k) == k && k in t.m && t.m[k] == t.nodes[i].val
    {
      t.SlotMeaning(i);
    }
  }

  method Apply(t: RawTable, c: Change)
    requires t.Valid()
    modifies t, t.arr, t.nodes
    ensures t.Valid() && (t.arr == old(t.arr) || fresh(t.arr)) && (t.nodes == old(t.nodes) || fresh(t.nodes))
    ensures t.m == Changed(old(t.m), c) && KeepsSlots(old(t.Snapshot()), t.Snapshot())
    ensures MomentOf(t).m == t.m && KeepsSlots(old(MomentOf(t)).shape, MomentOf(t).shape)
    ensures t.meta == if c.NewMeta? then c.mt else old(t.meta)
  {
    hide TableOk;
    if c.Store? {
      var r := t.RawSet(c.key, c.val);
    } else if c.NewMeta? {
      t.SetMeta(c.mt);
    } else {
      t.ClearWeak(c.weakKey, c.weakVal, DeadIn(c.gone));
    }
  }

  /** The moments of the first |moments| - 1 changes. */
  ghost predicate Trail(moments: seq<Moment>, cs: seq<Change>) {
    && 0 < |moments| <= |cs| + 1
    && (forall k :: 0 <= k < |moments| - 1 ==> moments[k + 1].m == Changed(moments[k].m, cs[k]))
    && (forall k :: 0 <= k < |moments| - 1 ==> KeepsSlots(moments[k].shape, moments[k + 1].shape))
    && (forall k :: 0 <= k < |moments| ==> SlotsAgree(moments[k]))
  }

  lemma TrailNext(moments: seq<Moment>, cs: seq<Change>, w: Moment)
    requires Trail(moments, cs) && |moments| <= |cs| && SlotsAgree(w)
    requires var v := moments[|moments| - 1]; w.m == Changed(v.m, cs[|moments| - 1]) && KeepsSlots(v.shape, w.shape)
    ensures Trail(moments + [w], cs)
  {
    hide KeepsSlots, SlotsAgree, Changed;
  }

  lemma {:induction false} TrailMap(moments: seq<Moment>, cs: seq<Change>)
    requires Trail(moments, cs)
    ensures moments[|moments| - 1].m == ChangedAll(moments[0].m, cs[..|moments| - 1])
    decreases |moments|
  {
    var n := |moments| - 1;
    if n > 0 {
      TrailMap(moments[..n], cs);
      assert cs[..n][..n - 1] == cs[..n - 1];
    }
  }

  /** Any run of changes on any table, through `moments`. Reads give the last values written, and the
      generation contract holds between any two moments. */
  method Run(t: RawTable, cs: seq<Change>) returns (ghost moments: seq<Moment>)
    requires t.Valid()
    modifies t, t.arr, t.nodes
    ensures t.Valid()
    ensures |moments| == |cs| + 1 && moments[0] == old(MomentOf(t)) && moments[|cs|] == MomentOf(t)
    ensures forall k :: 0 <= k < |cs| ==> HappenedAs(moments[k].m, cs[k], moments[k + 1].m)
    ensures forall i, j :: 0 <= i <= j <= |cs| ==> StillAnswers(moments[i], moments[j])
    ensures forall key :: Lookup(t.m, key) == LastWritten(cs, key, Lookup(old(t.m), key))
  {
    NilNotHeld(t);
    moments := [MomentOf(t)];
    ghost var m0 := t.m;
    SlotsMeanMap(t);
    hide TableOk, StillAnswers, KeepsSlots, SlotsAgree, Changed, Lookup, LastWritten, HappenedAs;
    assert Trail(moments, cs);
    hide Trail, MomentOf, RawTable.Snapshot;
    for k := 0 to |cs|
      invariant t.Valid()
      invariant (t.arr == old(t.arr) || fresh(t.arr)) && (t.nodes == old(t.nodes) || fresh(t.nodes))
      invariant |moments| == k + 1 && moments[0] == old(MomentOf(t)) && moments[k] == MomentOf(t) && moments[k].m == t.m
      invariant Trail(moments, cs)
    {
      Apply(t, cs[k]);
      SlotsMeanMap(t);
      TrailNext(moments, cs, MomentOf(t));
      moments := moments + [MomentOf(t)];
    }
    TrailEnds(moments, cs);
    forall key ensures Lookup(t.m, key) == LastWritten(cs, key, Lookup(m0, key)) {
      LastWriteWins(m0, cs, key);
    }
  }

  lemma TrailEnds(moments: seq<Moment>, cs: seq<Change>)
    requires Trail(moments, cs) && |moments| == |cs| + 1
    ensures moments[|cs|].m == ChangedAll(moments[0].m, cs)
    ensures forall k :: 0 <= k < |cs| ==> HappenedAs(moments[k].m, cs[k], moments[k + 1].m)
    ensures forall i, j :: 0 <= i <= j <= |cs| ==> StillAnswers(moments[i], moments[j])
  {
    hide StillAnswers, KeepsSlots, SlotsAgree, Changed, ChangedAll, HappenedAs;
    forall k | 0 <= k < |cs| ensures HappenedAs(moments[k].m, cs[k], moments[k + 1].m) {
      ChangedIs(moments[k].m, cs[k]);
    }
    TrailMap(moments, cs);
    assert cs[..|cs|] == cs;
    AllStillAnswer(moments);
  }

  lemma AllStillAnswer(moments: seq<Moment>)
    requires forall k :: 0 <= k < |moments| - 1 ==> KeepsSlots(moments[k].shape, moments[k + 1].shape)
    requires forall k :: 0 <= k < |moments| ==> SlotsAgree(moments[k])
    ensures forall i, j :: 0 <= i <= j < |moments| ==> StillAnswers(moments[i], moments[j])
  {
    hide KeepsSlots, SlotsAgree, StillAnswers;
    forall i, j | 0 <= i <= j < |moments| ensures StillAnswers(moments[i], moments[j]) {
      KeptBetween(moments, i, j);
      SlotStillAnswers(moments[i], moments[j]);
    }
  }

  lemma {:induction false} KeptBetween(moments: seq<Moment>, i: nat, j: nat)
    requires i <= j < |moments|
    requires forall k :: 0 <= k < |moments| - 1 ==> KeepsSlots(moments[k].shape, moments[k + 1].shape)
    ensures KeepsSlots(moments[i].shape, moments[j].shape)
    decreases j
  {
    if i == j {
    } else {
      KeptBetween(moments, i, j - 1);
      KeepsSlotsTransitive(moments[i].shape, moments[j - 1].shape, moments[j].shape);
    }
  }
}
