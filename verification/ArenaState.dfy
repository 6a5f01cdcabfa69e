/** What holds of the arena between operations, and the elementary steps that keep it
    (internal/arena/arena.go:97-130, internal/arena/freelist.go:105-330). */
module ArenaState {
  import opened SizeClasses
  import opened ArenaLayout
  import opened FreeLists

  /** The arena's fields, and the blocks they stand for. Addresses are in words. */
  datatype State = State(
    ws: Words, bump: nat,
    smallHeads: seq<nat>, largeHeads: seq<nat>,
    byStart: map<nat, nat>, byEnd: map<nat, nat>,
    freeBytes: nat,
    m: Blocks, smallAfter: After, largeAfter: After)

  /** The address index and the blocks agree. */
  ghost predicate Indexed(byStart: map<nat, nat>, byEnd: map<nat, nat>, m: Blocks) {
    && (forall s :: s in byStart <==> s in m && m[s].Large?)
    && (forall s :: s in byStart ==> byStart[s] == m[s].n && s + m[s].n in byEnd && byEnd[s + m[s].n] == s)
    && (forall e :: e in byEnd ==> byEnd[e] in byStart && e == byEnd[e] + byStart[byEnd[e]])
  }

  ghost predicate ZeroFrom(ws: Words, bump: nat) {
    forall i :: bump <= i < |ws| ==> ws[i] == 0
  }

  ghost predicate ArenaOk(st: State) {
    && st.bump <= |st.ws|
    && Tiled(st.m, st.bump)
    && Coalesced(st.m, st.bump)
    && SmallLists(st.ws, st.smallHeads, st.m, st.smallAfter)
    && LargeLists(st.ws, st.largeHeads, st.m, st.largeAfter)
    && Indexed(st.byStart, st.byEnd, st.m)
    && st.freeBytes == 8 * Sum(st.m, FreeLen)
    && ZeroFrom(st.ws, st.bump)
  }

  ghost predicate SameBlock(ws: Words, ws': Words, s: nat, n: nat) {
    s + n <= |ws| && s + n <= |ws'| && forall i :: s <= i < s + n ==> ws'[i] == ws[i]
  }

  /** Outstanding blocks keep their contents. */
  ghost predicate KeepsContents(ws: Words, ws': Words, m: Blocks) {
    forall s :: s in m && m[s].Out? ==> SameBlock(ws, ws', s, m[s].n)
  }

  lemma KeepsContentsTransitive(a: Words, b: Words, c: Words, m: Blocks, m': Blocks)
    requires KeepsContents(a, b, m) && KeepsContents(b, c, m')
    requires forall s :: s in m && m[s].Out? ==> s in m' && m'[s] == m[s]
    ensures KeepsContents(a, c, m)
  {
    forall s | s in m && m[s].Out? ensures SameBlock(a, c, s, m[s].n) {
      assert SameBlock(a, b, s, m[s].n) && SameBlock(b, c, s, m'[s].n);
    }
  }

  lemma SpreadHolds(m: Blocks, bump: nat)
    requires InRange(m, bump) && Disjoint(m)
    ensures Spread(m)
  {
    forall s, t | s in m && t in m && m[s].Large? && m[t].Large? && s < t ensures s + 2 < t {
      assert BlockOk(m[s]) && s + Len(m[s]) <= t;
    }
  }

  // ---- unlinking and inserting a LARGE block ----

  ghost function Unlinked(st: State, s: nat): State
    requires s in st.m && st.m[s].Large? && st.m[s].n > LARGE_THRESHOLD && |st.largeHeads| == NUM_LARGE
    requires s + 2 < |st.ws| && st.ws[s] + 2 < |st.ws| && st.ws[s + 2] + 2 < |st.ws|
    requires st.freeBytes >= 8 * st.m[s].n
  {
    var n := st.m[s].n;
    st.(ws := Unhooked(st.ws, st.ws[s + 2], st.ws[s]),
        largeHeads := if st.ws[s + 2] == 0 then st.largeHeads[LargeClass(n) := st.ws[s]] else st.largeHeads,
        byStart := st.byStart - {s}, byEnd := st.byEnd - {s + n},
        freeBytes := st.freeBytes - 8 * n,
        m := st.m[s := Out(n)],
        largeAfter := Without(st.largeAfter, s))
  }

  lemma UnlinkReady(st: State, s: nat)
    requires ArenaOk(st) && s in st.m && st.m[s].Large?
    ensures st.m[s].n > LARGE_THRESHOLD && |st.largeHeads| == NUM_LARGE
    ensures s + 2 < |st.ws| && st.ws[s] + 2 < |st.ws| && st.ws[s + 2] + 2 < |st.ws|
    ensures st.freeBytes >= 8 * st.m[s].n
    ensures st.ws[s + 1] == st.m[s].n
    ensures s in st.byStart && st.byStart[s] == st.m[s].n && s + st.m[s].n in st.byEnd
  {
    hide SmallLists, Sum, Coalesced;
    assert BlockOk(st.m[s]);
    SpreadHolds(st.m, st.bump);
    UnlinkLargeOk(st.ws, st.largeHeads, st.m, st.largeAfter, s);
    var c := LargeClass(st.m[s].n);
    assert InBucket(st.m, s, c) && LargeNode(st.ws, st.largeHeads[c], st.m, st.largeAfter, s, c);
    SumRemove(st.m, FreeLen, s);
  }

  /** Unhooking writes only list words of other free LARGE blocks. */
  lemma UnhookContents(st: State, s: nat)
    requires ArenaOk(st) && s in st.m && st.m[s].Large?
    requires s + 2 < |st.ws| && st.ws[s] + 2 < |st.ws| && st.ws[s + 2] + 2 < |st.ws|
    ensures var ws' := Unhooked(st.ws, st.ws[s + 2], st.ws[s]);
      && KeepsContents(st.ws, ws', st.m)
      && ZeroFrom(ws', st.bump)
      && forall t :: t in st.m && st.m[t].Small? ==> t < |st.ws| && ws'[t] == st.ws[t]
  {
    hide SmallLists, Sum, Coalesced, Indexed;
    var prev, next := st.ws[s + 2], st.ws[s];
    assert BlockOk(st.m[s]);
    var c := LargeClass(st.m[s].n);
    assert InBucket(st.m, s, c) && LargeNode(st.ws, st.largeHeads[c], st.m, st.largeAfter, s, c);
    assert prev != 0 ==> InBucket(st.m, prev, c);
    assert next != 0 ==> InBucket(st.m, next, c);
    HeaderWritesKeep(st.m, st.bump, st.ws, Unhooked(st.ws, prev, next), prev, next);
  }

  /** Writes confined to the first three words of two free LARGE blocks. */
  lemma HeaderWritesKeep(m: Blocks, bump: nat, ws: Words, ws': Words, p: nat, x: nat)
    requires InRange(m, bump) && Disjoint(m) && bump <= |ws| == |ws'| && ZeroFrom(ws, bump)
    requires p != 0 ==> p in m && m[p].Large?
    requires x != 0 ==> x in m && m[x].Large?
    requires forall i :: 0 <= i < |ws| && ws'[i] != ws[i] ==> (p != 0 && p <= i <= p + 2) || (x != 0 && x <= i <= x + 2)
    ensures KeepsContents(ws, ws', m) && ZeroFrom(ws', bump)
    ensures forall t :: t in m && m[t].Small? ==> t < |ws| && ws'[t] == ws[t]
  {
    forall t | t in m && !m[t].Large?
      ensures t + Len(m[t]) <= bump
      ensures forall i :: t <= i < t + Len(m[t]) ==> ws'[i] == ws[i]
    {
      assert BlockOk(m[t]);
      if p != 0 { assert BlockOk(m[p]) && (p < t ==> p + Len(m[p]) <= t) && (t < p ==> t + Len(m[t]) <= p); }
      if x != 0 { assert BlockOk(m[x]) && (x < t ==> x + Len(m[x]) <= t) && (t < x ==> t + Len(m[t]) <= x); }
    }
    forall t | t in m && m[t].Small? ensures t < |ws| && ws'[t] == ws[t] {
      assert BlockOk(m[t]) && t + Len(m[t]) <= bump;
    }
  }

  lemma UnlinkStep(st: State, s: nat)
    requires ArenaOk(st) && s in st.m && st.m[s].Large?
    requires st.m[s].n > LARGE_THRESHOLD && |st.largeHeads| == NUM_LARGE
    requires s + 2 < |st.ws| && st.ws[s] + 2 < |st.ws| && st.ws[s + 2] + 2 < |st.ws|
    requires st.freeBytes >= 8 * st.m[s].n
    ensures ArenaOk(Unlinked(st, s))
    ensures KeepsContents(st.ws, Unlinked(st, s).ws, st.m)
  {
    hide Sum, InRange, Disjoint, Coalesced, Indexed, SmallLists, LargeLists, LargeClass, Unhooked, ZeroFrom;
    hide KeepsContents, Spread;
    var st' := Unlinked(st, s);
    var n := st.m[s].n;
    SpreadHolds(st.m, st.bump);
    UnlinkLargeOk(st.ws, st.largeHeads, st.m, st.largeAfter, s);
    UnhookContents(st, s);
    RetagTiled(st.m, st.bump, s, Out(n));
    SumUpdate(st.m, FreeLen, s, Out(n));
    IndexRemove(st.byStart, st.byEnd, st.m, s);
    CoalescedLess(st.m, st.bump, s, Out(n));
    SameHeadersRefl(st'.ws, st.m - {s});
    KeepLarge(st'.ws, st'.ws, st'.largeHeads, st.m - {s}, st'.m, st'.largeAfter);
    KeepSmall(st.ws, st'.ws, st.smallHeads, st.m, st'.m, st.smallAfter);
  }

  lemma IndexRemove(byStart: map<nat, nat>, byEnd: map<nat, nat>, m: Blocks, s: nat)
    requires Indexed(byStart, byEnd, m) && s in m && m[s].Large?
    ensures Indexed(byStart - {s}, byEnd - {s + m[s].n}, m[s := Out(m[s].n)])
  {
  }

  ghost function Inserted(st: State, s: nat, n: nat): State
    requires n > LARGE_THRESHOLD && |st.largeHeads| == NUM_LARGE
    requires s + 2 < |st.ws| && st.largeHeads[LargeClass(n)] + 2 < |st.ws|
  {
    var c := LargeClass(n);
    st.(ws := Hooked(st.ws, s, n, st.largeHeads[c]),
        largeHeads := st.largeHeads[c := s],
        byStart := st.byStart[s := n], byEnd := st.byEnd[s + n := s],
        freeBytes := st.freeBytes + 8 * n,
        m := st.m[s := Large(n)],
        largeAfter := st.largeAfter[s := {s} + Behind(st.largeAfter, st.largeHeads[c])])
  }

  /** A block in hand whose neighbours are not free LARGE blocks, and which does not end at bump. */
  ghost predicate Insertable(st: State, s: nat, n: nat) {
    && s in st.m && st.m[s] == Out(n) && n > LARGE_THRESHOLD
    && s + n != st.bump
    && (s + n in st.m ==> !st.m[s + n].Large?)
    && (forall t :: t in st.m && st.m[t].Large? ==> t + st.m[t].n != s)
  }

  lemma InsertReady(st: State, s: nat, n: nat)
    requires ArenaOk(st) && Insertable(st, s, n)
    ensures |st.largeHeads| == NUM_LARGE && 0 < s && s + n <= |st.ws| && st.largeHeads[LargeClass(n)] + 2 < |st.ws|
  {
    var c := LargeClass(n);
    assert s + Len(st.m[s]) <= st.bump;
    assert LargeHead(st.ws, st.largeHeads[c], st.m, st.largeAfter, c);
  }

  lemma InsertStep(st: State, s: nat, n: nat)
    requires ArenaOk(st) && Insertable(st, s, n)
    requires |st.largeHeads| == NUM_LARGE && s + 2 < |st.ws| && st.largeHeads[LargeClass(n)] + 2 < |st.ws|
    ensures ArenaOk(Inserted(st, s, n))
    ensures KeepsContents(st.ws, Inserted(st, s, n).ws, st.m - {s})
  {
    hide Sum, InRange, Disjoint, Coalesced, Indexed, SmallLists, LargeLists, LargeClass, Hooked, ZeroFrom;
    hide KeepsContents, Spread;
    var st' := Inserted(st, s, n);
    OutInRange(st.m, st.bump, s);
    RetagTiled(st.m, st.bump, s, Large(n));
    SpreadHolds(st'.m, st.bump);
    SumUpdate(st.m, FreeLen, s, Large(n));
    HookContents(st, s, n);
    InsertLargeOk(st.ws, st.largeHeads, st.m, st.largeAfter, s, n);
    IndexInsert(st.byStart, st.byEnd, st.m, st.bump, s, n);
    InsertCoalesced(st, s, n);
    KeepSmall(st.ws, st'.ws, st.smallHeads, st.m, st'.m, st.smallAfter);
  }

  lemma CoalescedLess(m: Blocks, bump: nat, s: nat, b: Block)
    requires Coalesced(m, bump) && s in m && !b.Large?
    ensures Coalesced(m[s := b], bump)
  {
  }

  lemma SameHeadersRefl(ws: Words, m: Blocks)
    ensures SameHeaders(ws, ws, m)
  {
  }

  lemma HeadsSized(ws: Words, heads: seq<nat>, m: Blocks, after: After)
    requires SmallLists(ws, heads, m, after)
    ensures |heads| == NUM_CLASSES
  {
  }

  lemma OutInRange(m: Blocks, bump: nat, s: nat)
    requires InRange(m, bump) && s in m
    ensures 0 < s && s + Len(m[s]) <= bump && BlockOk(m[s])
  {
  }

  /** Hooking writes only the block's own first words and one list word of the old head. */
  lemma HookContents(st: State, s: nat, n: nat)
    requires ArenaOk(st) && Insertable(st, s, n)
    requires |st.largeHeads| == NUM_LARGE && s + 2 < |st.ws| && st.largeHeads[LargeClass(n)] + 2 < |st.ws|
    ensures var ws' := Hooked(st.ws, s, n, st.largeHeads[LargeClass(n)]);
      && KeepsContents(st.ws, ws', st.m - {s})
      && ZeroFrom(ws', st.bump)
      && forall t :: t in st.m && st.m[t].Small? ==> t < |st.ws| && ws'[t] == st.ws[t]
  {
    hide Sum, Coalesced, Indexed, SmallLists, LargeClass;
    var c := LargeClass(n);
    var h := st.largeHeads[c];
    assert LargeHead(st.ws, h, st.m, st.largeAfter, c);
    assert h != 0 ==> InBucket(st.m, h, c);
    var m' := st.m[s := Large(n)];
    RetagTiled(st.m, st.bump, s, Large(n));
    HeaderWritesKeep(m', st.bump, st.ws, Hooked(st.ws, s, n, h), s, h);
    forall t | t in st.m - {s} && st.m[t].Out? ensures SameBlock(st.ws, Hooked(st.ws, s, n, h), t, st.m[t].n) {
      assert m'[t] == st.m[t];
    }
  }

  lemma InsertCoalesced(st: State, s: nat, n: nat)
    requires Coalesced(st.m, st.bump) && Insertable(st, s, n)
    ensures Coalesced(st.m[s := Large(n)], st.bump)
  {
  }

  lemma EndsDiffer(m: Blocks, bump: nat, s: nat, t: nat)
    requires InRange(m, bump) && Disjoint(m) && s in m && t in m && s != t
    ensures t + Len(m[t]) != s + Len(m[s])
  {
    assert BlockOk(m[t]) && BlockOk(m[s]);
    assert t < s ==> t + Len(m[t]) <= s;
    assert s < t ==> s + Len(m[s]) <= t;
  }

  lemma IndexInsert(byStart: map<nat, nat>, byEnd: map<nat, nat>, m: Blocks, bump: nat, s: nat, n: nat)
    requires Indexed(byStart, byEnd, m) && InRange(m, bump) && Disjoint(m)
    requires s in m && m[s] == Out(n)
    ensures Indexed(byStart[s := n], byEnd[s + n := s], m[s := Large(n)])
  {
    NoOtherEnd(byStart, m, bump, s, n, byEnd);
    hide InRange, Disjoint;
    var byEnd', byStart' := byEnd[s + n := s], byStart[s := n];
    forall e | e in byEnd' ensures byEnd'[e] in byStart' && e == byEnd'[e] + byStart'[byEnd'[e]] {
      if e != s + n { assert byEnd[e] in byStart; }
    }
  }

  lemma NoOtherEnd(byStart: map<nat, nat>, m: Blocks, bump: nat, s: nat, n: nat, byEnd: map<nat, nat>)
    requires Indexed(byStart, byEnd, m) && InRange(m, bump) && Disjoint(m) && s in m && m[s] == Out(n)
    ensures forall t :: t in byStart ==> t + m[t].n != s + n
  {
    forall t | t in byStart ensures t + m[t].n != s + n {
      EndsDiffer(m, bump, s, t);
    }
  }

  // ---- small buckets ----

  ghost function Pushed(st: State, s: nat, c: nat): State
    requires c < NUM_CLASSES && |st.smallHeads| == NUM_CLASSES && s < |st.ws|
  {
    st.(ws := st.ws[s := st.smallHeads[c]], smallHeads := st.smallHeads[c := s],
        freeBytes := st.freeBytes + 8 * ClassWords(c),
        m := st.m[s := Small(c)],
        smallAfter := st.smallAfter[s := {s} + Behind(st.smallAfter, st.smallHeads[c])])
  }

  /** A write inside an outstanding block touches nothing else. */
  lemma WriteInside(m: Blocks, bump: nat, ws: Words, s: nat, i: nat, v: nat)
    requires InRange(m, bump) && Disjoint(m) && bump <= |ws| && ZeroFrom(ws, bump)
    requires s in m && m[s].Out? && s <= i < s + m[s].n
    ensures s + m[s].n <= bump
    ensures KeepsContents(ws, ws[i := v], m - {s}) && ZeroFrom(ws[i := v], bump)
    ensures forall t :: t in m && m[t].Small? ==> t < |ws| && ws[i := v][t] == ws[t]
    ensures SameHeaders(ws, ws[i := v], m)
  {
    assert s + Len(m[s]) <= bump;
    forall t | t in m && t != s
      ensures t + Len(m[t]) <= bump && BlockOk(m[t])
      ensures i < t || t + Len(m[t]) <= i
    {
      assert t < s ==> t + Len(m[t]) <= s;
      assert s < t ==> s + Len(m[s]) <= t;
    }
  }

  lemma PushStep(st: State, s: nat, c: nat)
    requires ArenaOk(st) && c < NUM_CLASSES && s in st.m && st.m[s] == Out(ClassWords(c))
    ensures |st.smallHeads| == NUM_CLASSES && 0 < s < |st.ws|
    ensures ArenaOk(Pushed(st, s, c))
    ensures KeepsContents(st.ws, Pushed(st, s, c).ws, st.m - {s})
  {
    hide Sum, InRange, Disjoint, Coalesced, Indexed, SmallLists, LargeLists, ZeroFrom, KeepsContents, SameHeaders;
    ClassRoundTrip(c);
    HeadsSized(st.ws, st.smallHeads, st.m, st.smallAfter);
    OutInRange(st.m, st.bump, s);
    WriteInside(st.m, st.bump, st.ws, s, s, st.smallHeads[c]);
    var st' := Pushed(st, s, c);
    RetagTiled(st.m, st.bump, s, Small(c));
    SumUpdate(st.m, FreeLen, s, Small(c));
    PushSmall(st.ws, st.smallHeads, st.m, st.smallAfter, c, s);
    CoalescedLess(st.m, st.bump, s, Small(c));
    IndexSame(st.byStart, st.byEnd, st.m, st'.m);
    KeepLarge(st.ws, st'.ws, st.largeHeads, st.m, st'.m, st.largeAfter);
  }

  ghost function Popped(st: State, c: nat): State
    requires c < NUM_CLASSES && |st.smallHeads| == NUM_CLASSES && st.smallHeads[c] < |st.ws|
    requires st.freeBytes >= 8 * ClassWords(c)
  {
    var h := st.smallHeads[c];
    st.(smallHeads := st.smallHeads[c := st.ws[h]], freeBytes := st.freeBytes - 8 * ClassWords(c),
        m := st.m[h := Out(ClassWords(c))],
        smallAfter := Without(st.smallAfter, h))
  }

  lemma PopStep(st: State, c: nat)
    requires ArenaOk(st) && c < NUM_CLASSES
    ensures |st.smallHeads| == NUM_CLASSES
    ensures st.smallHeads[c] != 0 ==>
      && var h := st.smallHeads[c];
      && h < |st.ws| && h in st.m && st.m[h] == Small(c) && st.freeBytes >= 8 * ClassWords(c)
      && ArenaOk(Popped(st, c))
  {
    hide Sum, InRange, Disjoint, Coalesced, Indexed, SmallLists, LargeLists, ZeroFrom, SameHeaders;
    HeadsSized(st.ws, st.smallHeads, st.m, st.smallAfter);
    if st.smallHeads[c] != 0 {
      var h := st.smallHeads[c];
      ClassRoundTrip(c);
      PopSmall(st.ws, st.smallHeads, st.m, st.smallAfter, c, Out(ClassWords(c)));
      RetagTiled(st.m, st.bump, h, Out(ClassWords(c)));
      SumUpdate(st.m, FreeLen, h, Out(ClassWords(c)));
      SumRemove(st.m, FreeLen, h);
      var st' := Popped(st, c);
      CoalescedLess(st.m, st.bump, h, Out(ClassWords(c)));
      IndexSame(st.byStart, st.byEnd, st.m, st'.m);
      SameHeadersRefl(st.ws, st.m);
      KeepLarge(st.ws, st.ws, st.largeHeads, st.m, st'.m, st.largeAfter);
    }
  }

  // ---- blocks in hand ----

  /** The same blocks are free. */
  ghost predicate SameFreeBlocks(m: Blocks, m': Blocks) {
    && (forall s :: s in m' && !m'[s].Out? && !m'[s].Tail? ==> s in m && m[s] == m'[s])
    && (forall s :: s in m && !m[s].Out? && !m[s].Tail? ==> s in m' && m[s] == m'[s])
  }

  /** Words of free blocks are the same. */
  ghost predicate FreeWordsKept(ws: Words, ws': Words, m: Blocks) {
    forall s :: s in m && (m[s].Small? || m[s].Large?) ==> SameBlock(ws, ws', s, Len(m[s]))
  }

  /** Any change among outstanding blocks and tails that leaves the free blocks alone. */
  lemma SameFree(st: State, m': Blocks, bump': nat, ws': Words)
    requires ArenaOk(st) && Tiled(m', bump') && bump' <= |ws'| && ZeroFrom(ws', bump')
    requires SameFreeBlocks(st.m, m') && Sum(m', FreeLen) == Sum(st.m, FreeLen)
    requires Coalesced(m', bump')
    requires FreeWordsKept(st.ws, ws', st.m)
    ensures ArenaOk(st.(m := m', bump := bump', ws := ws'))
  {
    hide Sum, Coalesced, Indexed, SmallLists, LargeLists, Disjoint, ZeroFrom;
    forall s: nat, c: nat | InBucket(st.m, s, c) ensures SameHeader(st.ws, ws', s) {
      assert BlockOk(st.m[s]) && SameBlock(st.ws, ws', s, st.m[s].n);
    }
    assert forall s: nat, c: nat :: InBucket(m', s, c) <==> InBucket(st.m, s, c);
    assert forall s: nat, c: nat :: IsSmall(m', s, c) <==> IsSmall(st.m, s, c);
    forall s | s in st.m && st.m[s].Small? ensures s < |ws'| && s < |st.ws| && ws'[s] == st.ws[s] {
      assert BlockOk(st.m[s]) && SameBlock(st.ws, ws', s, Len(st.m[s]));
    }
    KeepLarge(st.ws, ws', st.largeHeads, st.m, m', st.largeAfter);
    KeepSmall(st.ws, ws', st.smallHeads, st.m, m', st.smallAfter);
    IndexSame(st.byStart, st.byEnd, st.m, m');
  }

  lemma IndexSame(byStart: map<nat, nat>, byEnd: map<nat, nat>, m: Blocks, m': Blocks)
    requires Indexed(byStart, byEnd, m)
    requires forall s :: s in m' && m'[s].Large? ==> s in m && m[s] == m'[s]
    requires forall s :: s in m && m[s].Large? ==> s in m' && m[s] == m'[s]
    ensures Indexed(byStart, byEnd, m')
  {
  }

  lemma FreeWordsRefl(ws: Words, m: Blocks, bump: nat)
    requires InRange(m, bump) && bump <= |ws|
    ensures FreeWordsKept(ws, ws, m)
  {
    forall s | s in m && (m[s].Small? || m[s].Large?) ensures SameBlock(ws, ws, s, Len(m[s])) {
      assert s + Len(m[s]) <= bump;
    }
  }

  lemma SplitStep(st: State, s: nat, a: nat)
    requires ArenaOk(st) && s in st.m && st.m[s].Out? && 0 < a < st.m[s].n
    ensures s + a !in st.m
    ensures ArenaOk(st.(m := st.m[s := Out(a)][s + a := Out(st.m[s].n - a)]))
  {
    hide Sum, Coalesced, Indexed, SmallLists, LargeLists, ZeroFrom, InRange, Disjoint, FreeWordsKept;
    var b := st.m[s].n - a;
    SplitTiled(st.m, st.bump, s, Out(a), Out(b));
    var m' := st.m[s := Out(a)][s + a := Out(b)];
    SumUpdate(st.m, FreeLen, s, Out(a));
    var m1 := st.m[s := Out(a)];
    assert m1 - {s + a} == m1;
    SumInsert(m1, FreeLen, s + a, Out(b));
    CoalescedSame(st.m, m', st.bump);
    FreeWordsRefl(st.ws, st.m, st.bump);
    SameFree(st, m', st.bump, st.ws);
  }

  lemma CoalescedSame(m: Blocks, m': Blocks, bump: nat)
    requires Coalesced(m, bump)
    requires forall s :: s in m' && m'[s].Large? ==> s in m && m[s] == m'[s]
    ensures Coalesced(m', bump)
  {
  }

  lemma MergeStep(st: State, s: nat, t: nat)
    requires ArenaOk(st) && s in st.m && t in st.m && st.m[s].Out? && st.m[t].Out? && s + st.m[s].n == t
    ensures s != t && ArenaOk(st.(m := (st.m - {t})[s := Out(st.m[s].n + st.m[t].n)]))
  {
    hide Sum, Coalesced, Indexed, SmallLists, LargeLists, ZeroFrom, InRange, Disjoint, FreeWordsKept;
    OutInRange(st.m, st.bump, s);
    OutInRange(st.m, st.bump, t);
    var b := Out(st.m[s].n + st.m[t].n);
    var m' := (st.m - {t})[s := b];
    MergeTiled(st.m, st.bump, s, t, b);
    SumMerge(st.m, FreeLen, s, t, b);
    CoalescedSame(st.m, m', st.bump);
    FreeWordsRefl(st.ws, st.m, st.bump);
    SameFree(st, m', st.bump, st.ws);
  }

  lemma DroppedFree(m: Blocks, s: nat)
    requires s in m && m[s].Out?
    ensures SameFreeBlocks(m, m[s := Tail(m[s].n)])
    ensures forall t :: t in m[s := Tail(m[s].n)] && m[s := Tail(m[s].n)][t].Large? ==>
      t in m && m[t] == m[s := Tail(m[s].n)][t]
  {
  }

  /** The last words of a split too short for any bucket. */
  lemma TailStep(st: State, s: nat)
    requires ArenaOk(st) && s in st.m && st.m[s].Out? && st.m[s].n <= MAX_TAIL
    ensures ArenaOk(st.(m := st.m[s := Tail(st.m[s].n)]))
  {
    hide Sum, Coalesced, Indexed, SmallLists, LargeLists, ZeroFrom, InRange, Disjoint, FreeWordsKept, SameFreeBlocks;
    OutInRange(st.m, st.bump, s);
    var b := Tail(st.m[s].n);
    DroppedFree(st.m, s);
    RetagTiled(st.m, st.bump, s, b);
    SumUpdate(st.m, FreeLen, s, b);
    CoalescedSame(st.m, st.m[s := b], st.bump);
    FreeWordsRefl(st.ws, st.m, st.bump);
    SameFree(st, st.m[s := b], st.bump, st.ws);
  }

  /** Carving at the bump pointer; the words there are still zero. */
  lemma AppendStep(st: State, n: nat)
    requires ArenaOk(st) && n > 0 && st.bump + n <= |st.ws|
    ensures st.bump !in st.m
    ensures ArenaOk(st.(m := st.m[st.bump := Out(n)], bump := st.bump + n))
    ensures forall i :: st.bump <= i < st.bump + n ==> st.ws[i] == 0
  {
    hide Sum, Indexed, SmallLists, LargeLists, InRange, Disjoint, FreeWordsKept;
    var m' := st.m[st.bump := Out(n)];
    AppendTiled(st.m, st.bump, Out(n));
    assert st.m - {st.bump} == st.m;
    SumInsert(st.m, FreeLen, st.bump, Out(n));
    AppendCoalesced(st.m, st.bump, n);
    FreeWordsRefl(st.ws, st.m, st.bump);
    SameFree(st, m', st.bump + n, st.ws);
  }

  lemma AppendCoalesced(m: Blocks, bump: nat, n: nat)
    requires InRange(m, bump) && Coalesced(m, bump) && bump !in m
    ensures Coalesced(m[bump := Out(n)], bump + n)
  {
    forall s | s in m && m[s].Large? ensures s + m[s].n < bump {
      assert s + Len(m[s]) <= bump;
    }
  }

  ghost predicate Cleared(ws: Words, ws': Words, lo: nat, hi: nat) {
    |ws'| == |ws| && forall i :: 0 <= i < |ws'| ==> ws'[i] == if lo <= i < hi then 0 else ws[i]
  }

  lemma ClearedKeeps(m: Blocks, bump: nat, s: nat, ws: Words, ws': Words)
    requires InRange(m, bump) && Disjoint(m) && bump <= |ws| && ZeroFrom(ws, bump)
    requires s in m && m[s].Out? && s + m[s].n == bump && Cleared(ws, ws', s, bump)
    ensures FreeWordsKept(ws, ws', m) && KeepsContents(ws, ws', m - {s}) && ZeroFrom(ws', s)
  {
    forall t | t in m && t != s ensures SameBlock(ws, ws', t, Len(m[t])) {
      assert t + Len(m[t]) <= bump && BlockOk(m[t]);
      assert t < s ==> t + Len(m[t]) <= s;
      assert s < t ==> s + Len(m[s]) <= t;
    }
  }

  lemma RetreatCoalesced(m: Blocks, bump: nat, s: nat)
    requires Coalesced(m, bump) && s in m && m[s].Out?
    requires forall t :: t in m && m[t].Large? ==> t + m[t].n != s
    ensures Coalesced(m - {s}, s)
  {
  }

  /** A block in hand that ends at the bump pointer is given up, its words cleared. */
  lemma RetreatStep(st: State, s: nat, ws': Words)
    requires ArenaOk(st) && s in st.m && st.m[s].Out? && s + st.m[s].n == st.bump
    requires forall t :: t in st.m && st.m[t].Large? ==> t + st.m[t].n != s
    requires Cleared(st.ws, ws', s, st.bump)
    ensures ArenaOk(st.(m := st.m - {s}, bump := s, ws := ws'))
    ensures KeepsContents(st.ws, ws', st.m - {s})
  {
    hide Sum, Indexed, SmallLists, LargeLists, InRange, Disjoint, Coalesced, FreeWordsKept, ZeroFrom, KeepsContents;
    OutInRange(st.m, st.bump, s);
    ClearedKeeps(st.m, st.bump, s, st.ws, ws');
    RetreatTiled(st.m, st.bump, s);
    SumRemove(st.m, FreeLen, s);
    RetreatCoalesced(st.m, st.bump, s);
    SameFree(st, st.m - {s}, s, ws');
  }

  /** A write inside an outstanding block. */
  lemma WriteStep(st: State, s: nat, i: nat, v: nat)
    requires ArenaOk(st) && s in st.m && st.m[s].Out? && s <= i < s + st.m[s].n
    ensures i < |st.ws| && ArenaOk(st.(ws := st.ws[i := v]))
    ensures KeepsContents(st.ws, st.ws[i := v], st.m - {s})
  {
    assert s + Len(st.m[s]) <= st.bump;
    var ws' := st.ws[i := v];
    forall t | t in st.m && t != s ensures SameBlock(st.ws, ws', t, Len(st.m[t])) {
      assert t + Len(st.m[t]) <= st.bump && BlockOk(st.m[t]);
      assert t < s ==> t + Len(st.m[t]) <= s;
      assert s < t ==> s + Len(st.m[s]) <= t;
    }
    hide Sum, Indexed, SmallLists, LargeLists, InRange, Disjoint, Coalesced;
    SameFree(st, st.m, st.bump, ws');
  }

  /** A new backing with the same words below the bump pointer and zeros above. */
  lemma ResizeStep(st: State, ws': Words)
    requires ArenaOk(st) && st.bump <= |ws'| && ZeroFrom(ws', st.bump)
    requires forall i :: 0 <= i < st.bump ==> ws'[i] == st.ws[i]
    ensures ArenaOk(st.(ws := ws'))
    ensures KeepsContents(st.ws, ws', st.m)
  {
    forall t | t in st.m ensures SameBlock(st.ws, ws', t, Len(st.m[t])) {
      assert t + Len(st.m[t]) <= st.bump && BlockOk(st.m[t]);
    }
    hide Sum, Indexed, SmallLists, LargeLists, InRange, Disjoint, Coalesced;
    SameFree(st, st.m, st.bump, ws');
  }
}
