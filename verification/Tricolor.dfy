/** Colours, the gray stack and the sweep chain (internal/gc/mark.go:45-74,
    internal/gc/sweep.go:17-49, internal/object/header.go:131-137). */
module Tricolor {
  import opened Values
  import opened ObjectGraph

  /** The two whites take turns at being the colour of candidates for collection. */
  datatype Color = White(n: bool) | Gray | Black

  type Colors = map<nat, Color>

  /** Objects not yet reached. */
  ghost function Unmarked(color: Colors, dead: Color): set<nat> {
    set r | r in color && color[r] == dead
  }

  ghost predicate Marked(color: Colors, dead: Color, r: nat) {
    r in color && color[r] != dead
  }

  /** The gray stack lists each gray object once. */
  ghost predicate GrayOk(color: Colors, gray: seq<nat>) {
    && (forall r :: r in color && color[r] == Gray ==> r in gray)
    && (forall i :: 0 <= i < |gray| ==> gray[i] in color && color[gray[i]] == Gray)
    && (forall i, j :: 0 <= i < j < |gray| ==> gray[i] != gray[j])
  }

  /** Marking in progress, with the object `cur` black but not yet scanned in full (0: none).
      Black objects do not refer to unmarked ones, and only what is reachable is marked. */
  ghost predicate Marking(g: Graph, roots: set<nat>, color: Colors, gray: seq<nat>, dead: Color, cur: nat) {
    && dead.White? && color.Keys == g.Keys && 0 !in g
    && GrayOk(color, gray)
    && (forall r :: r in g && color[r] == Black && r != cur ==> ScannedObject(g, color, dead, r))
    && (forall r :: Marked(color, dead, r) ==> (color[r] == Gray || color[r] == Black) && Reachable(g, roots, r))
  }

  ghost predicate ScannedObject(g: Graph, color: Colors, dead: Color, r: nat)
    requires r in g
  {
    forall k :: k in g[r] ==> Marked(color, dead, k)
  }

  lemma MarkStart(g: Graph, roots: set<nat>, color: Colors, dead: Color)
    requires dead.White? && color.Keys == g.Keys && 0 !in g && forall r :: r in color ==> color[r] == dead
    ensures Marking(g, roots, color, [], dead, 0)
  {
  }

  /** Graying one unmarked object. */
  lemma MarkStep(g: Graph, roots: set<nat>, color: Colors, gray: seq<nat>, dead: Color, cur: nat, r: nat)
    requires Marking(g, roots, color, gray, dead, cur) && r in g && color[r] == dead && Reachable(g, roots, r)
    ensures Marking(g, roots, color[r := Gray], gray + [r], dead, cur)
    ensures |Unmarked(color[r := Gray], dead)| + 1 == |Unmarked(color, dead)|
  {
    var color' := color[r := Gray];
    GrayPushed(color, gray, dead, r);
    UnmarkedLess(color, dead, r);
    hide GrayOk, Unmarked, Reachable, ScannedObject, Marked;
    forall x | x in g && color'[x] == Black && x != cur ensures ScannedObject(g, color', dead, x) {
      assert x != r;
      StillScanned(g, color, dead, x, r);
    }
    forall x | Marked(color', dead, x) ensures (color'[x] == Gray || color'[x] == Black) && Reachable(g, roots, x) {
      MarkedBefore(color, dead, r, x);
    }
  }

  lemma StillScanned(g: Graph, color: Colors, dead: Color, x: nat, r: nat)
    requires x in g && ScannedObject(g, color, dead, x) && dead.White?
    ensures ScannedObject(g, color[r := Gray], dead, x)
  {
  }

  lemma MarkedBefore(color: Colors, dead: Color, r: nat, x: nat)
    requires dead.White? && Marked(color[r := Gray], dead, x)
    ensures x in color[r := Gray] && (x == r || Marked(color, dead, x))
  {
  }

  lemma UnmarkedLess(color: Colors, dead: Color, r: nat)
    requires r in color && color[r] == dead && dead.White?
    ensures |Unmarked(color[r := Gray], dead)| + 1 == |Unmarked(color, dead)|
  {
    assert Unmarked(color[r := Gray], dead) == Unmarked(color, dead) - {r};
  }

  lemma GrayPushed(color: Colors, gray: seq<nat>, dead: Color, r: nat)
    requires GrayOk(color, gray) && r in color && color[r] == dead && dead.White?
    ensures GrayOk(color[r := Gray], gray + [r])
  {
  }

  /** Taking an object off the stack and blackening it. */
  lemma PopStep(g: Graph, roots: set<nat>, color: Colors, gray: seq<nat>, dead: Color)
    requires Marking(g, roots, color, gray, dead, 0) && |gray| > 0
    ensures var r := gray[|gray| - 1];
      && r in g && r in color && color[r] == Gray && Reachable(g, roots, r)
      && Marking(g, roots, color[r := Black], gray[..|gray| - 1], dead, r)
      && Unmarked(color[r := Black], dead) == Unmarked(color, dead)
  {
    var r := gray[|gray| - 1];
    var color' := color[r := Black];
    GrayPopped(color, gray);
    hide GrayOk, Reachable;
    forall x | x in g && color'[x] == Black && x != r ensures ScannedObject(g, color', dead, x) {
      assert ScannedObject(g, color, dead, x);
    }
  }

  lemma GrayPopped(color: Colors, gray: seq<nat>)
    requires GrayOk(color, gray) && |gray| > 0
    ensures var r := gray[|gray| - 1];
      r in color && color[r] == Gray && GrayOk(color[r := Black], gray[..|gray| - 1])
  {
  }

  lemma ScanDone(g: Graph, roots: set<nat>, color: Colors, gray: seq<nat>, dead: Color, cur: nat)
    requires Marking(g, roots, color, gray, dead, cur)
    requires cur in g ==> ScannedObject(g, color, dead, cur)
    ensures Marking(g, roots, color, gray, dead, 0)
  {
  }

  /** With an empty gray stack the marked objects are exactly the reachable ones. */
  lemma MarkedIsReachable(g: Graph, roots: set<nat>, color: Colors, dead: Color)
    requires Marking(g, roots, color, [], dead, 0)
    requires forall r :: r in roots && r in g ==> Marked(color, dead, r)
    ensures forall r :: r in g ==> (color[r] == Black <==> Reachable(g, roots, r))
    ensures forall r :: r in g ==> (color[r] == dead <==> !Reachable(g, roots, r))
  {
    var s := set r | r in g && color[r] == Black;
    forall r, k | r in s && r in g && k in g[r] && k in g ensures k in s {
      assert ScannedObject(g, color, dead, r) && Marked(color, dead, k);
    }
    forall r | r in roots && r in g ensures r in s {
      assert Marked(color, dead, r);
    }
    ClosedHoldsReachable(g, roots, s);
    forall r | r in g && color[r] == Black ensures Reachable(g, roots, r) {
      assert Marked(color, dead, r);
    }
    forall r | r in g && color[r] != dead ensures color[r] == Black {
      assert Marked(color, dead, r);
    }
  }

  // ---- scanning an object ----

  /** Marking only turns unmarked objects gray. */
  ghost predicate Onward(before: Colors, after: Colors, dead: Color) {
    && before.Keys == after.Keys
    && forall r :: r in before && after[r] != before[r] ==> before[r] == dead && after[r] == Gray
  }

  /** A reference marking may be asked to follow. */
  ghost predicate May(g: Graph, roots: set<nat>, r: nat) {
    r != 0 ==> r in g && Reachable(g, roots, r)
  }

  ghost predicate MayValue(g: Graph, roots: set<nat>, v: Value) {
    v.Ref? ==> May(g, roots, v.ref)
  }

  ghost predicate Seen(color: Colors, dead: Color, r: nat) {
    r != 0 ==> Marked(color, dead, r)
  }

  ghost predicate SeenValue(color: Colors, dead: Color, v: Value) {
    v.Ref? ==> Seen(color, dead, v.ref)
  }

  /** The references from a reachable object may be followed. */
  lemma KidsMay(h: Heap, ts: Threads, roots: set<nat>, r: nat)
    requires NoDangling(h, ts) && r in h && Reachable(Edges(h, ts), roots, r)
    ensures forall k :: k in RefsHeld(ts, h[r]) ==> May(Edges(h, ts), roots, k)
  {
    var g := Edges(h, ts);
    forall k | k in RefsHeld(ts, h[r]) && k != 0 ensures k in g && Reachable(g, roots, k) {
      assert k in Kids(ts, h[r]);
      KidReachable(g, roots, r, k);
    }
  }

  /** An object is scanned once everything it holds was seen. */
  lemma SeenIsScanned(h: Heap, ts: Threads, color: Colors, dead: Color, r: nat)
    requires r in h && forall k :: k in RefsHeld(ts, h[r]) ==> Seen(color, dead, k)
    ensures ScannedObject(Edges(h, ts), color, dead, r)
  {
  }

  ghost predicate AllSeen(color: Colors, dead: Color, refs: set<nat>) {
    forall k :: k in refs ==> Seen(color, dead, k)
  }

  ghost predicate AllMay(g: Graph, roots: set<nat>, refs: set<nat>) {
    forall k :: k in refs ==> May(g, roots, k)
  }

  lemma SeenStays(before: Colors, after: Colors, dead: Color, refs: set<nat>)
    requires Onward(before, after, dead) && AllSeen(before, dead, refs)
    ensures AllSeen(after, dead, refs)
  {
    forall k | k in refs ensures Seen(after, dead, k) {
      assert Seen(before, dead, k);
    }
  }

  /** The weak tables scanned so far, each once. */
  ghost predicate WeakListed(h: Heap, color: Colors, weakList: seq<nat>, cur: nat) {
    && (forall r :: r in h && r in color && color[r] == Black && IsWeak(h[r]) && r != cur ==> r in weakList)
    && (forall r :: r in weakList ==> r in h && r in color && color[r] == Black && IsWeak(h[r]) && r != cur)
    && (forall i, j :: 0 <= i < j < |weakList| ==> weakList[i] != weakList[j])
  }

  lemma WeakListOnward(h: Heap, before: Colors, after: Colors, dead: Color, weakList: seq<nat>, cur: nat)
    requires WeakListed(h, before, weakList, cur) && Onward(before, after, dead) && dead.White?
    ensures WeakListed(h, after, weakList, cur)
  {
  }

  lemma OnwardFrom(a: Colors, b: Colors, c: Colors, dead: Color)
    requires (a == b || Onward(a, b, dead)) && Onward(b, c, dead) && dead.White?
    ensures Onward(a, c, dead)
  {
  }

  /** What was seen stays seen, and more is. */
  lemma SeenBoth(before: Colors, after: Colors, dead: Color, a: set<nat>, b: set<nat>)
    requires Onward(before, after, dead) && AllSeen(before, dead, a) && AllSeen(after, dead, b)
    ensures AllSeen(after, dead, a + b)
  {
    SeenStays(before, after, dead, a);
  }

  lemma AllSeenLess(color: Colors, dead: Color, a: set<nat>, b: set<nat>)
    requires AllSeen(color, dead, a) && b <= a
    ensures AllSeen(color, dead, b)
  {
    forall k | k in b ensures Seen(color, dead, k) {
      assert k in a;
    }
  }

  lemma RootsMay(h: Heap, ts: Threads, refs: seq<nat>, values: seq<Value>, active: seq<nat>)
    requires RootsOk(h, refs, values, active, ts)
    ensures var rs := RootSet(refs, values, active, ts);
      AllMay(Edges(h, ts), rs, set r | r in refs) && AllMay(Edges(h, ts), rs, RefsIn(values))
  {
    var rs := RootSet(refs, values, active, ts);
    forall k | k in (set r | r in refs) + RefsIn(values) ensures May(Edges(h, ts), rs, k) {
      if k != 0 { RootReachable(Edges(h, ts), rs, k); }
    }
  }

  lemma ActiveMay(h: Heap, ts: Threads, refs: seq<nat>, values: seq<Value>, active: seq<nat>, i: nat)
    requires RootsOk(h, refs, values, active, ts) && i < |active|
    ensures active[i] in ts
    ensures var rs, t := RootSet(refs, values, active, ts), ts[active[i]];
      AllMay(Edges(h, ts), rs, RefsIn(t.stack)) && AllMay(Edges(h, ts), rs, t.open.Values)
        && May(Edges(h, ts), rs, t.ref)
  {
    var rs := RootSet(refs, values, active, ts);
    assert active[i] in active;
    forall k | k in ActiveRefs(ts[active[i]]) ensures May(Edges(h, ts), rs, k) {
      if k != 0 { RootReachable(Edges(h, ts), rs, k); }
    }
  }

  lemma GraphHas(h: Heap, ts: Threads)
    ensures Edges(h, ts).Keys == h.Keys
  {
  }

  lemma PoppedWeak(h: Heap, color: Colors, weakList: seq<nat>, r: nat)
    requires WeakListed(h, color, weakList, 0) && r in color && color[r] == Gray && 0 !in h
    ensures WeakListed(h, color[r := Black], weakList, r)
  {
  }

  lemma ListedWeak(h: Heap, color: Colors, weakList: seq<nat>, r: nat)
    requires WeakListed(h, color, weakList, r) && r in h && r in color && color[r] == Black && 0 !in h
    ensures WeakListed(h, color, weakList + (if IsWeak(h[r]) then [r] else []), 0)
  {
  }

  // ---- the sweep chain ----

  ghost predicate Linked(gcnext: map<nat, nat>, chain: seq<nat>, i: nat)
    requires i < |chain|
  {
    chain[i] != 0 && chain[i] in gcnext && gcnext[chain[i]] == After(chain, i)
  }

  /** gcnext links the objects of `chain`, from the head on. */
  ghost predicate ChainOk(head: nat, gcnext: map<nat, nat>, chain: seq<nat>) {
    && head == (if chain == [] then 0 else chain[0])
    && (forall i: nat {:trigger Linked(gcnext, chain, i)} :: i < |chain| ==> Linked(gcnext, chain, i))
    && (forall i, j :: 0 <= i < j < |chain| ==> chain[i] != chain[j])
  }

  function After(chain: seq<nat>, i: nat): nat {
    if i + 1 < |chain| then chain[i + 1] else 0
  }

  lemma LinkOk(head: nat, gcnext: map<nat, nat>, chain: seq<nat>, r: nat)
    requires ChainOk(head, gcnext, chain) && r != 0 && r !in chain
    ensures ChainOk(r, gcnext[r := head], [r] + chain)
  {
    var c, next' := [r] + chain, gcnext[r := head];
    forall i: nat | i < |c| ensures Linked(next', c, i) {
      if i > 0 { assert Linked(gcnext, chain, i - 1); }
    }
  }

  function LastOf(s: seq<nat>): nat {
    if s == [] then 0 else s[|s| - 1]
  }

  /** Unlinking the object after `kept`. */
  lemma UnlinkOk(head: nat, gcnext: map<nat, nat>, kept: seq<nat>, r: nat, rest: seq<nat>)
    requires ChainOk(head, gcnext, kept + [r] + rest)
    ensures r != 0 && r in gcnext && gcnext[r] == (if rest == [] then 0 else rest[0])
    ensures kept == [] ==> ChainOk(gcnext[r], gcnext - {r}, kept + rest)
    ensures kept != [] ==>
      LastOf(kept) != 0 && LastOf(kept) in gcnext && ChainOk(head, gcnext[LastOf(kept) := gcnext[r]] - {r}, kept + rest)
  {
    var c, c' := kept + [r] + rest, kept + rest;
    var n := |kept|;
    assert Linked(gcnext, c, n) && c[n] == r;
    assert rest != [] ==> c[n + 1] == rest[0];
    if n > 0 { assert Linked(gcnext, c, n - 1) && c[n - 1] == LastOf(kept); }
    var next' := (if kept == [] then gcnext else gcnext[LastOf(kept) := gcnext[r]]) - {r};
    forall i: nat | i < |c'| ensures Linked(next', c', i) {
      UnlinkedAt(gcnext, kept, r, rest, i);
    }
    forall i, j | 0 <= i < j < |c'| ensures c'[i] != c'[j] {
      assert c'[i] == c[if i < n then i else i + 1] && c'[j] == c[if j < n then j else j + 1];
    }
  }

  lemma UnlinkedAt(gcnext: map<nat, nat>, kept: seq<nat>, r: nat, rest: seq<nat>, i: nat)
    requires forall j: nat {:trigger Linked(gcnext, kept + [r] + rest, j)} :: j < |kept| + 1 + |rest| ==>
      Linked(gcnext, kept + [r] + rest, j)
    requires forall j, k :: 0 <= j < k < |kept| + 1 + |rest| ==> (kept + [r] + rest)[j] != (kept + [r] + rest)[k]
    requires i < |kept| + |rest| && r in gcnext
    ensures Linked((if kept == [] then gcnext else gcnext[LastOf(kept) := gcnext[r]]) - {r}, kept + rest, i)
  {
    var c, n := kept + [r] + rest, |kept|;
    var j := if i < n then i else i + 1;
    assert Linked(gcnext, c, j) && Linked(gcnext, c, n) && c[n] == r && c[j] == (kept + rest)[i];
    assert c[j] != r;
    if n > 0 && i != n - 1 { assert c[j] != c[n - 1]; }
  }

  /** Where the sweep stands in the chain. */
  lemma ChainHere(head: nat, gcnext: map<nat, nat>, kept: seq<nat>, rest: seq<nat>)
    requires ChainOk(head, gcnext, kept + rest) && rest != []
    ensures var r := rest[0];
      r != 0 && r in gcnext && r !in kept && r !in rest[1..] && gcnext[r] == if rest[1..] == [] then 0 else rest[1..][0]
  {
    var c := kept + rest;
    assert c[|kept|] == rest[0] && Linked(gcnext, c, |kept|);
    forall i | 0 <= i < |kept| ensures kept[i] != rest[0] {
      assert c[i] == kept[i];
    }
    forall i | 0 < i < |rest| ensures rest[i] != rest[0] {
      assert c[|kept| + i] == rest[i];
    }
  }

  // ---- sweeping ----

  /** What a sweep works on. */
  datatype SweepState = SweepState(head: nat, gcnext: map<nat, nat>, heap: Heap, color: Colors)

  /** A sweep that has kept the objects `kept` and still has `rest` before it. */
  ghost predicate Sweeping(s: SweepState, kept: seq<nat>, rest: seq<nat>, h: Heap, live: set<nat>, current: Color,
                           dead: Color) {
    && current != dead
    && ChainOk(s.head, s.gcnext, kept + rest)
    && s.heap.Keys == s.color.Keys == s.gcnext.Keys
    && (forall r :: r in s.heap <==> r in kept || r in rest)
    && (forall r :: r in s.heap ==> r in h && s.heap[r] == h[r])
    && (forall r :: r in h && r in live ==> r in s.heap)
    && (forall r :: r in kept ==> r in live && r in s.color && s.color[r] == current)
    && (forall r :: r in rest ==> r in s.color && (s.color[r] == dead <==> r !in live))
  }

  lemma SweepStart(s: SweepState, chain: seq<nat>, live: set<nat>, current: Color, dead: Color)
    requires current != dead && ChainOk(s.head, s.gcnext, chain) && s.heap.Keys == s.color.Keys == s.gcnext.Keys
    requires forall r :: r in s.heap <==> r in chain
    requires forall r :: r in s.heap ==> (s.color[r] == dead <==> r !in live)
    ensures Sweeping(s, [], chain, s.heap, live, current, dead)
    ensures s.head == if chain == [] then 0 else chain[0]
  {
    assert [] + chain == chain;
  }

  lemma SweepHere(s: SweepState, kept: seq<nat>, rest: seq<nat>, h: Heap, live: set<nat>, current: Color, dead: Color)
    requires Sweeping(s, kept, rest, h, live, current, dead) && rest != []
    ensures var r := rest[0];
      && r != 0 && r in s.heap && r in s.color && r in s.gcnext && r in h && s.heap[r] == h[r]
      && s.gcnext[r] == if rest[1..] == [] then 0 else rest[1..][0]
  {
    ChainHere(s.head, s.gcnext, kept, rest);
    hide ChainOk;
  }

  lemma UnreachedHere(s: SweepState, kept: seq<nat>, rest: seq<nat>, h: Heap, live: set<nat>, current: Color,
                      dead: Color)
    requires Sweeping(s, kept, rest, h, live, current, dead) && rest != []
    ensures rest[0] in s.color && (s.color[rest[0]] == dead <==> rest[0] !in live)
  {
  }

  /** The sweep state after the object at the front of `rest` was unlinked and freed. */
  function Freed(s: SweepState, prev: nat, r: nat): SweepState
    requires r in s.gcnext
  {
    SweepState(if prev == 0 then s.gcnext[r] else s.head,
               (if prev == 0 then s.gcnext else s.gcnext[prev := s.gcnext[r]]) - {r},
               s.heap - {r}, s.color - {r})
  }

  lemma SweepFree(s: SweepState, kept: seq<nat>, rest: seq<nat>, h: Heap, live: set<nat>, current: Color, dead: Color)
    requires Sweeping(s, kept, rest, h, live, current, dead) && rest != []
    requires rest[0] in s.gcnext && rest[0] !in live
    ensures Sweeping(Freed(s, LastOf(kept), rest[0]), kept, rest[1..], h, live, current, dead)
  {
    var r := rest[0];
    ChainFreed(s, kept, rest);
    ChainHere(s.head, s.gcnext, kept, rest);
    hide ChainOk;
    var s' := Freed(s, LastOf(kept), r);
    assert rest == [r] + rest[1..];
    assert forall x :: x in rest[1..] ==> x in rest && x != r;
  }

  lemma ChainFreed(s: SweepState, kept: seq<nat>, rest: seq<nat>)
    requires ChainOk(s.head, s.gcnext, kept + rest) && rest != [] && rest[0] in s.gcnext
    ensures var s' := Freed(s, LastOf(kept), rest[0]);
      ChainOk(s'.head, s'.gcnext, kept + rest[1..]) && s'.gcnext.Keys == s.gcnext.Keys - {rest[0]}
  {
    assert kept + rest == kept + [rest[0]] + rest[1..];
    UnlinkOk(s.head, s.gcnext, kept, rest[0], rest[1..]);
    hide ChainOk;
  }

  lemma SweepKeep(s: SweepState, kept: seq<nat>, rest: seq<nat>, h: Heap, live: set<nat>, current: Color, dead: Color)
    requires Sweeping(s, kept, rest, h, live, current, dead) && rest != [] && rest[0] in live
    ensures Sweeping(s.(color := s.color[rest[0] := current]), kept + [rest[0]], rest[1..], h, live, current, dead)
  {
    hide ChainOk;
    ChainHere(s.head, s.gcnext, kept, rest);
    assert kept + rest == kept + [rest[0]] + rest[1..] && rest == [rest[0]] + rest[1..];
  }

  lemma SweepDone(s: SweepState, kept: seq<nat>, h: Heap, live: set<nat>, current: Color, dead: Color)
    requires Sweeping(s, kept, [], h, live, current, dead) && live <= h.Keys
    ensures s.heap == map r | r in h && r in live :: h[r]
    ensures s.heap.Keys == s.color.Keys == s.gcnext.Keys && forall r :: r in s.heap ==> s.color[r] == current
    ensures ChainOk(s.head, s.gcnext, kept) && forall r :: r in s.heap <==> r in kept
  {
    assert kept + [] == kept;
  }
}
