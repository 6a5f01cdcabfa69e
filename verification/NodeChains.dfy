/** The hash part of a table as a sequence of nodes linked into collision chains
    (internal/crescent/rawtable.go:191-270).

    The shape of the chains is described slot by slot with a `Chart`, which the nodes determine:
    `reach[i]` is the set of slots met when following `next` from slot i, `pred[j]` the one slot
    whose `next` is j, and `at[k]` the slot that holds key k. */
module NodeChains {
  import opened Values

  datatype Node = Node(key: Value, val: Value, next: int)

  datatype Chart = Chart(reach: seq<set<int>>, pred: seq<int>, at: map<Value, int>)

  const EMPTY_NODE := Node(Nil, Nil, -1)

  predicate IsFree(n: Node) {
    n.key.Nil? && n.val.Nil? && n.next < 0
  }

  ghost function ReachFrom(reach: seq<set<int>>, i: int): set<int>
    requires i < |reach|
  {
    if i < 0 then {} else reach[i]
  }

  /** Links stay in range and point at or above the free cursor; no slot has two predecessors; no
      slot lies on a cycle. */
  ghost predicate ChainShape(ns: seq<Node>, lastFree: nat, c: Chart) {
    Linked(ns, lastFree, c.pred) && Followed(ns, c.reach)
  }

  ghost predicate Linked(ns: seq<Node>, lastFree: nat, pred: seq<int>) {
    && |pred| == |ns|
    && (forall i :: 0 <= i < |ns| ==> -1 <= ns[i].next < |ns|)
    && (forall i :: 0 <= i < |ns| && ns[i].next >= 0 ==> lastFree <= ns[i].next && pred[ns[i].next] == i)
  }

  ghost predicate Followed(ns: seq<Node>, reach: seq<set<int>>) {
    && |reach| == |ns|
    && (forall i :: 0 <= i < |ns| ==> ns[i].next < |ns|)
    && (forall i {:trigger ns[i]} :: 0 <= i < |ns| ==> reach[i] == {i} + ReachFrom(reach, ns[i].next))
    && (forall i {:trigger ns[i]} :: 0 <= i < |ns| ==> i !in ReachFrom(reach, ns[i].next))
  }

  ghost predicate MainInRange(main: Value -> nat, size: nat) {
    forall k :: main(k) < size
  }

  /** Every live key is where the chart says and reachable from its main slot, and a slot used by a
      key outside its main slot is the main slot of no live key. */
  ghost predicate KeysPlaced(main: Value -> nat, ns: seq<Node>, c: Chart)
    requires |c.reach| == |ns|
  {
    && (|ns| > 0 ==> MainInRange(main, |ns|))
    && (forall i :: 0 <= i < |ns| ==> (ns[i].key.Nil? <==> ns[i].val.Nil?))
    && (forall i :: 0 <= i < |ns| && !ns[i].key.Nil? ==> ns[i].key in c.at && c.at[ns[i].key] == i)
    && (forall k :: k in c.at ==> IsKey(k) && 0 <= c.at[k] < |ns| && ns[c.at[k]].key == k)
    && (forall k :: k in c.at ==> c.at[k] in c.reach[main(k)])
    && (forall k :: k in c.at ==> var occ := ns[main(k)].key; occ.Nil? || main(occ) == main(k))
  }

  ghost predicate HashOk(main: Value -> nat, ns: seq<Node>, lastFree: nat, c: Chart) {
    ChainShape(ns, lastFree, c) && KeysPlaced(main, ns, c)
  }

  /** A free slot ends its chain, so no live key has it as main slot. */
  lemma FreeSlotIsNobodysMain(main: Value -> nat, ns: seq<Node>, lastFree: nat, c: Chart, f: int, k: Value)
    requires HashOk(main, ns, lastFree, c)
    requires 0 <= f < |ns| && IsFree(ns[f])
    requires k in c.at
    ensures main(k) != f
  {
    assert c.reach[f] == {f};
  }

  lemma EmptyNodesOk(main: Value -> nat, ns: seq<Node>, lastFree: nat) returns (c: Chart)
    requires forall i :: 0 <= i < |ns| ==> ns[i] == EMPTY_NODE
    requires |ns| > 0 ==> MainInRange(main, |ns|)
    ensures HashOk(main, ns, lastFree, c) && c.at == map[]
  {
    c := Chart(seq(|ns|, i => {i}), seq(|ns|, i => -1), map[]);
  }

  /** Writing a new value under a key already in place. */
  lemma SetValueOk(main: Value -> nat, ns: seq<Node>, lastFree: nat, c: Chart, i: int, v: Value)
    requires HashOk(main, ns, lastFree, c)
    requires 0 <= i < |ns| && !ns[i].key.Nil? && !v.Nil?
    ensures HashOk(main, ns[i := ns[i].(val := v)], lastFree, c)
  {
  }

  /** Deleting a key leaves a tombstone that keeps its link. */
  lemma TombstoneOk(main: Value -> nat, ns: seq<Node>, lastFree: nat, c: Chart, i: int)
    requires HashOk(main, ns, lastFree, c)
    requires 0 <= i < |ns| && !ns[i].key.Nil?
    ensures HashOk(main, ns[i := Node(Nil, Nil, ns[i].next)], lastFree, c.(at := c.at - {ns[i].key}))
  {
    TombstoneShape(ns, lastFree, c, i, c.at - {ns[i].key});
    TombstoneKeys(main, ns, c, i);
    hide ChainShape, KeysPlaced;
  }

  lemma TombstoneShape(ns: seq<Node>, lastFree: nat, c: Chart, i: int, at: map<Value, int>)
    requires ChainShape(ns, lastFree, c) && 0 <= i < |ns|
    ensures ChainShape(ns[i := Node(Nil, Nil, ns[i].next)], lastFree, c.(at := at))
  {
  }

  lemma TombstoneKeys(main: Value -> nat, ns: seq<Node>, c: Chart, i: int)
    requires |c.reach| == |ns| && KeysPlaced(main, ns, c) && 0 <= i < |ns| && !ns[i].key.Nil?
    ensures KeysPlaced(main, ns[i := Node(Nil, Nil, ns[i].next)], c.(at := c.at - {ns[i].key}))
  {
  }

  /** A free main slot, even one that ends another chain, takes the new key directly. */
  lemma PlaceAtMainOk(main: Value -> nat, ns: seq<Node>, lastFree: nat, c: Chart, k: Value, v: Value)
    requires |ns| > 0 && HashOk(main, ns, lastFree, c)
    requires IsKey(k) && !v.Nil? && k !in c.at
    requires IsFree(ns[main(k)])
    ensures HashOk(main, ns[main(k) := Node(k, v, -1)], lastFree, c.(at := c.at[k := main(k)]))
  {
    forall j | j in c.at ensures main(j) != main(k) {
      FreeSlotIsNobodysMain(main, ns, lastFree, c, main(k), j);
    }
  }

  /** A slot that is nobody's `next` is only reached from itself. */
  lemma {:induction false} OnlyTargetsReached(ns: seq<Node>, lastFree: nat, c: Chart, i: int, f: int)
    requires ChainShape(ns, lastFree, c)
    requires 0 <= i < |ns| && i != f
    requires forall j :: 0 <= j < |ns| ==> ns[j].next != f
    ensures f !in c.reach[i]
    decreases c.reach[i]
  {
    var n := ns[i].next;
    if n >= 0 {
      assert i !in c.reach[n] && i in c.reach[i];
      OnlyTargetsReached(ns, lastFree, c, n, f);
    }
  }

  // ---- hooking a key in behind its main slot ----

  /** `ns` with key k in free slot f, hooked in right behind its main slot m. */
  ghost function Chained(ns: seq<Node>, m: int, f: int, k: Value, v: Value): seq<Node>
    requires 0 <= m < |ns| && 0 <= f < |ns|
  {
    ns[f := Node(k, v, ns[m].next)][m := ns[m].(next := f)]
  }

  ghost function ChainedReach(reach: seq<set<int>>, m: int, f: int): (r: seq<set<int>>)
    requires 0 <= m < |reach|
    ensures |r| == |reach|
  {
    seq(|reach|, i requires 0 <= i < |reach| =>
      if i == f then (reach[m] - {m}) + {f}
      else if m in reach[i] then reach[i] + {f}
      else reach[i])
  }

  ghost function ChainedPred(ns: seq<Node>, pred: seq<int>, m: int, f: int): (p: seq<int>)
    requires 0 <= m < |ns| == |pred| && 0 <= f < |ns|
    requires ns[m].next < |ns|
    ensures |p| == |pred|
  {
    (if ns[m].next >= 0 then pred[ns[m].next := f] else pred)[f := m]
  }

  ghost function ChainedChart(ns: seq<Node>, c: Chart, m: int, f: int, k: Value): Chart
    requires 0 <= m < |ns| == |c.pred| == |c.reach| && 0 <= f < |ns|
    requires ns[m].next < |ns|
  {
    Chart(ChainedReach(c.reach, m, f), ChainedPred(ns, c.pred, m, f), c.at[k := f])
  }

  lemma ChainedShape(ns: seq<Node>, lastFree: nat, c: Chart, m: int, f: int, k: Value, v: Value)
    requires ChainShape(ns, lastFree, c)
    requires 0 <= m < |ns| && 0 <= f < lastFree && f < |ns| && f != m
    requires ns[f].next < 0
    ensures ChainShape(Chained(ns, m, f, k, v), f, ChainedChart(ns, c, m, f, k))
  {
    var ns' := Chained(ns, m, f, k, v);
    var r, r' := c.reach, ChainedReach(c.reach, m, f);
    forall i | 0 <= i < |ns| && i != f ensures f !in r[i] {
      OnlyTargetsReached(ns, lastFree, c, i, f);
    }
    assert r[m] == {m} + ReachFrom(r, ns[m].next);
    forall i | 0 <= i < |ns'|
      ensures r'[i] == {i} + ReachFrom(r', ns'[i].next) && i !in ReachFrom(r', ns'[i].next)
    {
      assert r[i] == {i} + ReachFrom(r, ns[i].next);
    }
  }

  /** A new key goes to a free slot behind a main slot that is a tombstone or holds its own key. */
  lemma ChainedOk(main: Value -> nat, ns: seq<Node>, lastFree: nat, c: Chart, f: int, k: Value, v: Value)
    requires |ns| > 0 && HashOk(main, ns, lastFree, c)
    requires IsKey(k) && !v.Nil? && k !in c.at
    requires 0 <= f < lastFree && f < |ns| && IsFree(ns[f]) && f != main(k)
    requires var occ := ns[main(k)].key; occ.Nil? || main(occ) == main(k)
    ensures HashOk(main, Chained(ns, main(k), f, k, v), f, ChainedChart(ns, c, main(k), f, k))
  {
    var m := main(k);
    var ns', c' := Chained(ns, m, f, k, v), ChainedChart(ns, c, m, f, k);
    ChainedShape(ns, lastFree, c, m, f, k, v);
    forall j | j in c.at
      ensures main(j) != f && c.at[j] in c'.reach[main(j)]
    {
      FreeSlotIsNobodysMain(main, ns, lastFree, c, f, j);
    }
    assert f in c'.reach[m] by { assert m in c.reach[m]; }
    hide ChainShape;
    ChainedKeys(main, ns, c, f, k, v);
  }

  lemma ChainedKeys(main: Value -> nat, ns: seq<Node>, c: Chart, f: int, k: Value, v: Value)
    requires |ns| > 0 && |c.reach| == |c.pred| == |ns| && KeysPlaced(main, ns, c)
    requires IsKey(k) && !v.Nil? && k !in c.at && 0 <= f < |ns| && IsFree(ns[f]) && f != main(k)
    requires var occ := ns[main(k)].key; occ.Nil? || main(occ) == main(k)
    requires ns[main(k)].next < |ns|
    requires var c' := ChainedChart(ns, c, main(k), f, k);
      |c'.reach| == |ns| && f in c'.reach[main(k)]
      && forall j :: j in c.at ==> main(j) != f && c.at[j] in c'.reach[main(j)]
    ensures KeysPlaced(main, Chained(ns, main(k), f, k, v), ChainedChart(ns, c, main(k), f, k))
  {
  }

  // ---- moving an occupant out of its visitor's way ----

  /** `ns` after the occupant of slot m has moved to free slot f, its predecessor p now pointing
      there, and key k has taken slot m. */
  ghost function Relocated(ns: seq<Node>, m: int, f: int, p: int, k: Value, v: Value): seq<Node>
    requires 0 <= m < |ns| && 0 <= f < |ns| && 0 <= p < |ns|
  {
    var moved := ns[f := ns[m]];
    moved[p := moved[p].(next := f)][m := Node(k, v, -1)]
  }

  ghost function RelocatedReach(reach: seq<set<int>>, m: int, f: int): (r: seq<set<int>>)
    requires 0 <= m < |reach|
    ensures |r| == |reach|
  {
    seq(|reach|, i requires 0 <= i < |reach| =>
      if i == m then {m}
      else if i == f || m in reach[i] then (reach[if i == f then m else i] - {m}) + {f}
      else reach[i])
  }

  ghost function RelocatedPred(ns: seq<Node>, pred: seq<int>, m: int, f: int, p: int): (q: seq<int>)
    requires 0 <= m < |ns| == |pred| && 0 <= f < |ns|
    requires ns[m].next < |ns|
    ensures |q| == |pred|
  {
    (if ns[m].next >= 0 then pred[ns[m].next := f] else pred)[f := p]
  }

  ghost function RelocatedChart(ns: seq<Node>, c: Chart, m: int, f: int, p: int, k: Value): Chart
    requires 0 <= m < |ns| == |c.pred| == |c.reach| && 0 <= f < |ns|
    requires ns[m].next < |ns|
  {
    Chart(RelocatedReach(c.reach, m, f), RelocatedPred(ns, c.pred, m, f, p), c.at[ns[m].key := f][k := m])
  }

  lemma RelocatedShape(ns: seq<Node>, lastFree: nat, c: Chart, m: int, f: int, p: int, k: Value, v: Value)
    requires ChainShape(ns, lastFree, c)
    requires 0 <= m < |ns| && 0 <= f < lastFree && f < |ns| && f != m && ns[f].next < 0
    requires 0 <= p < |ns| && ns[p].next == m
    ensures ChainShape(Relocated(ns, m, f, p, k, v), f, RelocatedChart(ns, c, m, f, p, k))
  {
    forall i | 0 <= i < |ns| && i != f ensures f !in c.reach[i] {
      OnlyTargetsReached(ns, lastFree, c, i, f);
    }
    assert p != m && p != f;
    RelocatedLinks(ns, lastFree, c.pred, m, f, p, k, v);
    RelocatedReached(ns, lastFree, c, m, f, p, k, v);
  }

  lemma RelocatedLinks(ns: seq<Node>, lastFree: nat, pred: seq<int>, m: int, f: int, p: int, k: Value, v: Value)
    requires Linked(ns, lastFree, pred)
    requires 0 <= m < |ns| && 0 <= f < lastFree && f < |ns| && f != m && ns[f].next < 0
    requires 0 <= p < |ns| && ns[p].next == m && p != m && p != f
    ensures Linked(Relocated(ns, m, f, p, k, v), f, RelocatedPred(ns, pred, m, f, p))
  {
  }

  lemma RelocatedReached(ns: seq<Node>, lastFree: nat, c: Chart, m: int, f: int, p: int, k: Value, v: Value)
    requires ChainShape(ns, lastFree, c)
    requires 0 <= m < |ns| && 0 <= f < lastFree && f < |ns| && f != m && ns[f].next < 0
    requires 0 <= p < |ns| && ns[p].next == m && p != m && p != f
    requires forall i :: 0 <= i < |ns| && i != f ==> f !in c.reach[i]
    ensures Followed(Relocated(ns, m, f, p, k, v), RelocatedReach(c.reach, m, f))
  {
    var ns' := Relocated(ns, m, f, p, k, v);
    var r, r' := c.reach, RelocatedReach(c.reach, m, f);
    assert r[m] == {m} + ReachFrom(r, ns[m].next);
    forall i | 0 <= i < |ns'|
      ensures r'[i] == {i} + ReachFrom(r', ns'[i].next) && i !in ReachFrom(r', ns'[i].next)
    {
      assert r[i] == {i} + ReachFrom(r, ns[i].next);
      assert i != p ==> ns[i].next != m;
    }
  }

  /** The occupant of k's main slot has its own main slot elsewhere and makes room for k. */
  lemma RelocatedOk(main: Value -> nat, ns: seq<Node>, lastFree: nat, c: Chart, f: int, p: int, k: Value, v: Value)
    requires |ns| > 0 && HashOk(main, ns, lastFree, c)
    requires IsKey(k) && !v.Nil? && k !in c.at
    requires 0 <= f < lastFree && f < |ns| && IsFree(ns[f])
    requires var m := main(k);
      !ns[m].key.Nil? && main(ns[m].key) != m && 0 <= p < |ns| && ns[p].next == m
    ensures HashOk(main, Relocated(ns, main(k), f, p, k, v), f, RelocatedChart(ns, c, main(k), f, p, k))
  {
    var m := main(k);
    assert p != m && p != f;
    RelocatedShape(ns, lastFree, c, m, f, p, k, v);
    forall j | j in c.at
      ensures main(j) != f && main(j) != m
    {
      FreeSlotIsNobodysMain(main, ns, lastFree, c, f, j);
    }
    RelocatedKeys(main, ns, c, f, p, k, v);
  }

  lemma RelocatedKeys(main: Value -> nat, ns: seq<Node>, c: Chart, f: int, p: int, k: Value, v: Value)
    requires |ns| > 0 && |c.reach| == |c.pred| == |ns| && KeysPlaced(main, ns, c)
    requires IsKey(k) && !v.Nil? && k !in c.at
    requires 0 <= f < |ns| && 0 <= p < |ns| && p != main(k) && p != f && f != main(k)
    requires ns[f].key.Nil? && !ns[main(k)].key.Nil? && ns[main(k)].next < |ns|
    requires forall j :: j in c.at ==> main(j) != f && main(j) != main(k)
    ensures KeysPlaced(main, Relocated(ns, main(k), f, p, k, v), RelocatedChart(ns, c, main(k), f, p, k))
  {
    var m := main(k);
    var ns', at' := Relocated(ns, m, f, p, k, v), c.at[ns[m].key := f][k := m];
    var r' := RelocatedReach(c.reach, m, f);
    RelocatedContents(ns, c.at, m, f, p, k, v);
    forall j | j in at'
      ensures at'[j] in r'[main(j)]
      ensures ns'[main(j)].key.Nil? || main(ns'[main(j)].key) == main(j)
    {
      if j != k {
        assert j in c.at && c.at[j] in c.reach[main(j)];
      }
    }
  }

  /** Which key is where after a relocation. */
  lemma RelocatedContents(ns: seq<Node>, at: map<Value, int>, m: int, f: int, p: int, k: Value, v: Value)
    requires 0 <= m < |ns| && 0 <= f < |ns| && 0 <= p < |ns| && p != m && p != f && f != m
    requires ns[f].key.Nil? && !ns[m].key.Nil? && IsKey(k) && !v.Nil? && k !in at
    requires forall i :: 0 <= i < |ns| ==> (ns[i].key.Nil? <==> ns[i].val.Nil?)
    requires forall i :: 0 <= i < |ns| && !ns[i].key.Nil? ==> ns[i].key in at && at[ns[i].key] == i
    requires forall j :: j in at ==> IsKey(j) && 0 <= at[j] < |ns| && ns[at[j]].key == j
    ensures var ns', at' := Relocated(ns, m, f, p, k, v), at[ns[m].key := f][k := m];
      && |ns'| == |ns|
      && ns'[f].key == ns[m].key && ns'[m].key == k
      && (forall i :: 0 <= i < |ns| && i != f && i != m ==> ns'[i].key == ns[i].key)
      && (forall i :: 0 <= i < |ns'| ==> (ns'[i].key.Nil? <==> ns'[i].val.Nil?))
      && (forall i :: 0 <= i < |ns'| && !ns'[i].key.Nil? ==> ns'[i].key in at' && at'[ns'[i].key] == i)
      && (forall j :: j in at' ==> IsKey(j) && 0 <= at'[j] < |ns'| && ns'[at'[j]].key == j)
  {
    var ns' := Relocated(ns, m, f, p, k, v);
    assert ns'[f].key == ns[m].key && ns'[f].val == ns[m].val && ns'[m] == Node(k, v, -1);
    assert forall i :: 0 <= i < |ns| && i != f && i != m ==> ns'[i].key == ns[i].key && ns'[i].val == ns[i].val;
  }

  // ---- occupied slots ----

  ghost function Slots(n: nat): (s: set<int>)
    ensures |s| == n && forall i :: i in s <==> 0 <= i < n
  {
    if n == 0 then {} else Slots(n - 1) + {n - 1}
  }

  ghost function Occupied(ns: seq<Node>): set<int> {
    set i | 0 <= i < |ns| && !ns[i].key.Nil?
  }

  /** Right after a rehash, and until the next deletion, there are no tombstones and every slot the
      free cursor has passed is in use. */
  ghost predicate Packed(ns: seq<Node>, lastFree: nat) {
    && lastFree <= |ns|
    && (forall i :: lastFree <= i < |ns| ==> !ns[i].key.Nil?)
    && (forall i :: 0 <= i < |ns| && ns[i].key.Nil? ==> ns[i].next < 0)
  }

  /** An insertion that fills one empty slot, the free cursor having skipped only slots in use. */
  lemma PackedAfterInsert(ns: seq<Node>, ns': seq<Node>, lastFree: nat, lastFree': nat, f: int)
    requires |ns'| == |ns| && 0 <= f < |ns| && ns[f].key.Nil? && !ns'[f].key.Nil?
    requires forall i :: 0 <= i < |ns| && i != f ==> (ns'[i].key.Nil? <==> ns[i].key.Nil?)
    requires forall i :: 0 <= i < |ns| && ns'[i].key.Nil? ==> ns'[i].next == ns[i].next
    requires lastFree' <= lastFree
    requires forall i :: lastFree' <= i < |ns| && i < lastFree && i != f ==> !IsFree(ns[i])
    requires forall i :: 0 <= i < |ns| ==> (ns[i].key.Nil? <==> ns[i].val.Nil?)
    ensures |Occupied(ns')| == |Occupied(ns)| + 1
    ensures Packed(ns, lastFree) ==> Packed(ns', lastFree')
  {
    assert Occupied(ns') == Occupied(ns) + {f};
  }

  /** With fewer keys than slots, a packed hash part still has a free slot below the cursor. */
  lemma RoomMeansFree(ns: seq<Node>, lastFree: nat)
    requires Packed(ns, lastFree) && |Occupied(ns)| < |ns|
    requires forall i :: 0 <= i < |ns| ==> (ns[i].key.Nil? <==> ns[i].val.Nil?)
    ensures exists i :: 0 <= i < lastFree && IsFree(ns[i])
  {
    var all := Slots(|ns|);
    assert all == Occupied(ns) + (all - Occupied(ns));
    var i :| i in all - Occupied(ns);
    assert IsFree(ns[i]);
  }
}
