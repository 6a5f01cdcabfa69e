/** What the arena holds for its callers: each outstanding block's words, by start. */
module ArenaContents {
  import opened SizeClasses
  import opened ArenaLayout
  import opened ArenaMoves
  import opened FreeLists
  import opened ArenaState

  ghost function Held(ws: Words, m: Blocks): map<nat, seq<nat>> {
    map s | s in m && m[s].Out? :: if s + m[s].n <= |ws| then ws[s..s + m[s].n] else []
  }

  function Zeros(n: nat): Words {
    seq(n, _ => 0)
  }

  function Put(ws: Words, i: nat, v: nat): (r: Words)
    requires i < |ws|
  {
    ws[i := v]
  }

  /** The outstanding blocks lie in [1, bump), are disjoint, and share no word with a free block. */
  lemma HeldApart(st: State, s: nat, t: nat)
    requires ArenaOk(st) && s in st.m && st.m[s].Out? && t in st.m && t != s
    ensures 1 <= s && 0 < st.m[s].n && s + st.m[s].n <= st.bump <= |st.ws|
    ensures s + st.m[s].n <= t || t + Len(st.m[t]) <= s
    ensures s in Held(st.ws, st.m) && |Held(st.ws, st.m)[s]| == st.m[s].n
  {
    hide SmallLists, LargeLists, Sum, Coalesced, Indexed;
    assert BlockOk(st.m[s]) && BlockOk(st.m[t]);
    assert s < t ==> s + Len(st.m[s]) <= t;
    assert t < s ==> t + Len(st.m[t]) <= s;
  }

  /** Every byte below the bump pointer is in an outstanding block, on a free list, or in the
      tail of a split. */
  lemma BytesConserved(st: State)
    requires ArenaOk(st)
    ensures 8 * (st.bump - 1) == 8 * Sum(st.m, OutLen) + st.freeBytes + 8 * Sum(st.m, TailLen)
  {
    hide SmallLists, LargeLists, Coalesced, Indexed, InRange, Disjoint;
    SumSplit(st.m);
  }

  lemma HeldSame(ws: Words, ws': Words, m: Blocks, m': Blocks)
    requires KeepsContents(ws, ws', m)
    requires forall s :: s in m && m[s].Out? ==> s in m' && m'[s] == m[s]
    requires forall s :: s in m' && m'[s].Out? ==> s in m && m'[s] == m[s]
    ensures Held(ws', m') == Held(ws, m)
  {
    forall s | s in m && m[s].Out? ensures Held(ws', m')[s] == Held(ws, m)[s] {
      assert SameBlock(ws, ws', s, m[s].n);
    }
  }

  lemma HeldWith(ws: Words, ws': Words, m: Blocks, m': Blocks, r: nat)
    requires KeepsContents(ws, ws', m - {r})
    requires r in m' && m'[r].Out? && r + m'[r].n <= |ws'|
    requires forall s :: s in m && m[s].Out? && s != r ==> s in m' && m'[s] == m[s]
    requires forall s :: s in m' && m'[s].Out? && s != r ==> s in m && m'[s] == m[s]
    ensures Held(ws', m') == Held(ws, m)[r := ws'[r..r + m'[r].n]]
  {
    forall s | s in m && m[s].Out? && s != r ensures Held(ws', m')[s] == Held(ws, m)[s] {
      assert s in m - {r} && SameBlock(ws, ws', s, m[s].n);
    }
  }

  lemma SliceWritten(ws: Words, lo: nat, n: nat, i: nat, v: nat)
    requires lo + n <= |ws| && i < n
    ensures ws[lo + i := v][lo..lo + n] == Put(ws[lo..lo + n], i, v)
  {
  }

  lemma HeldIs(st: State, r: nat)
    requires ArenaOk(st) && r in Held(st.ws, st.m)
    ensures r in st.m && st.m[r].Out? && r + st.m[r].n <= |st.ws|
    ensures Held(st.ws, st.m)[r] == st.ws[r..r + st.m[r].n]
  {
    HandRoom(st, r);
  }

  /** A write into a held block. */
  lemma HeldWritten(st: State, r: nat, i: nat, v: nat)
    requires ArenaOk(st) && r in Held(st.ws, st.m) && i < |Held(st.ws, st.m)[r]|
    ensures r + i < |st.ws| && ArenaOk(st.(ws := st.ws[r + i := v]))
    ensures Held(st.ws[r + i := v], st.m) == Held(st.ws, st.m)[r := Put(Held(st.ws, st.m)[r], i, v)]
  {
    hide ArenaOk, KeepsContents, Held;
    HeldIs(st, r);
    WriteStep(st, r, r + i, v);
    var ws' := st.ws[r + i := v];
    HeldWith(st.ws, ws', st.m, st.m, r);
    SliceWritten(st.ws, r, st.m[r].n, i, v);
  }

  lemma HeldWithout(ws: Words, ws': Words, m: Blocks, m': Blocks, r: nat)
    requires KeepsContents(ws, ws', m - {r})
    requires r in m' ==> !m'[r].Out?
    requires forall s :: s in m && m[s].Out? && s != r ==> s in m' && m'[s] == m[s]
    requires forall s :: s in m' && m'[s].Out? && s != r ==> s in m && m'[s] == m[s]
    ensures Held(ws', m') == Held(ws, m) - {r}
  {
    forall s | s in m && m[s].Out? && s != r ensures Held(ws', m')[s] == Held(ws, m)[s] {
      assert s in m - {r} && SameBlock(ws, ws', s, m[s].n);
    }
  }

  /** `m` differs from m0, as far as callers see, in holding the block s of n words for r. */
  ghost predicate InHand(m0: Blocks, m: Blocks, r: nat, s: nat, n: nat) {
    && s in m && m[s] == Out(n)
    && (forall t :: t in m0 && m0[t].Out? && t != r ==> t in m && m[t] == m0[t] && t != s)
    && (forall t :: t in m && m[t].Out? && t != s ==> t in m0 && m0[t] == m[t] && t != r)
  }

  lemma InHandMerge(m0: Blocks, m: Blocks, r: nat, p: nat, s: nat, t: nat)
    requires s in m && t in m && m[s].Out? && m[t].Out? && s != t && {s, t} == {r, p}
    requires r in m0 && m0[r] == m[r] && p in m0 && !m0[p].Out? && m == m0[p := m[p]]
    ensures InHand(m0, (m - {t})[s := Out(m[s].n + m[t].n)], r, s, m[s].n + m[t].n)
  {
    assert (r == s && p == t) || (r == t && p == s);
  }

  lemma InHandTwice(m0: Blocks, m1: Blocks, m2: Blocks, r: nat, s: nat, n: nat, t: nat, k: nat)
    requires InHand(m0, m1, r, s, n) && InHand(m1, m2, s, t, k)
    ensures InHand(m0, m2, r, t, k)
  {
  }

  lemma InHandKeeps(a: Words, b: Words, c: Words, m0: Blocks, m1: Blocks, r: nat, s: nat, n: nat)
    requires InHand(m0, m1, r, s, n) && KeepsContents(a, b, m0 - {r}) && KeepsContents(b, c, m1 - {s})
    ensures KeepsContents(a, c, m0 - {r})
  {
    KeepsContentsTransitive(a, b, c, m0 - {r}, m1 - {s});
  }

  /** Giving up the block in hand leaves callers with everything but r. */
  lemma InHandGone(a: Words, b: Words, m0: Blocks, m1: Blocks, m2: Blocks, r: nat, s: nat, n: nat)
    requires InHand(m0, m1, r, s, n) && KeepsContents(a, b, m0 - {r})
    requires m2 == m1 - {s} || m2 == m1[s := Large(n)]
    ensures Held(b, m2) == Held(a, m0) - {r}
  {
    HeldWithout(a, b, m0, m2, r);
  }

  lemma BumpBound(st: State)
    requires ArenaOk(st)
    ensures 1 <= st.bump <= |st.ws| && |st.smallHeads| == NUM_CLASSES && |st.largeHeads| == NUM_LARGE
  {
  }

  lemma InHandHolds(m0: Blocks, m: Blocks, r: nat, s: nat, n: nat)
    requires InHand(m0, m, r, s, n)
    ensures s in m && m[s] == Out(n)
  {
  }

  lemma InHandAlready(st: State, s: nat, n: nat)
    requires ArenaOk(st) && s in st.m && st.m[s] == Out(n)
    ensures InHand(st.m, st.m, s, s, n) && KeepsContents(st.ws, st.ws, st.m - {s})
  {
    hide SmallLists, LargeLists, Sum, Coalesced, Indexed;
    forall t | t in st.m - {s} && st.m[t].Out? ensures SameBlock(st.ws, st.ws, t, st.m[t].n) {
      assert t + Len(st.m[t]) <= st.bump;
    }
  }

  lemma KeepsContentsLess(a: Words, b: Words, m: Blocks, m': Blocks)
    requires KeepsContents(a, b, m)
    requires forall s :: s in m' && m'[s].Out? ==> s in m && m[s] == m'[s]
    ensures KeepsContents(a, b, m')
  {
  }

  lemma HandRoom(st: State, s: nat)
    requires ArenaOk(st) && s in st.m
    ensures 0 < s && 0 < Len(st.m[s]) && s + Len(st.m[s]) <= st.bump <= |st.ws| && st.bump !in st.m
  {
    hide SmallLists, LargeLists, Sum, Coalesced, Indexed, Disjoint;
    assert BlockOk(st.m[s]);
    assert st.bump in st.m ==> BlockOk(st.m[st.bump]);
  }

  /** The rest of a split block goes to the free lists or is dropped. */
  lemma InHandSplit(m0: Blocks, m: Blocks, r: nat, need: nat, rest: nat, tail: nat)
    requires r in m0 && rest !in m0 && tail !in m0 && rest != r && tail != r
    requires r in m && m[r] == Out(need)
    requires forall t :: t in m && t != r && t != rest && t != tail ==> t in m0 && m0[t] == m[t]
    requires forall t :: t in m0 && t != r ==> t in m && m0[t] == m[t]
    requires rest in m ==> !m[rest].Out?
    requires tail in m ==> !m[tail].Out?
    ensures InHand(m0, m, r, r, need)
  {
  }

  /** What is before the rest of a split block is the part in hand. */
  lemma NothingBefore(st: State, s: nat, n: nat)
    requires ArenaOk(st) && s in st.m && st.m[s] == Out(n)
    ensures NoLargeBefore(st.m, s + n)
  {
    hide SmallLists, LargeLists, Sum, Coalesced, Indexed;
    forall t | t in st.m && st.m[t].Large? ensures t + st.m[t].n != s + n {
      EndsDiffer(st.m, st.bump, s, t);
    }
  }

  lemma NoneInBucket(st: State, c: nat)
    requires ArenaOk(st) && c < NUM_CLASSES && |st.smallHeads| == NUM_CLASSES && st.smallHeads[c] == 0
    ensures forall s :: s in st.m ==> st.m[s] != Small(c)
  {
    hide LargeLists, Sum, Coalesced, Indexed, InRange, Disjoint;
    assert SmallHead(st.smallHeads[c], st.m, st.smallAfter, c);
    assert Behind(st.smallAfter, 0) == {};
    forall s | s in st.m ensures st.m[s] != Small(c) {
      assert !IsSmall(st.m, s, c);
    }
  }

  // ---- neighbours ----

  /** Both joins together, seen from before them. */
  lemma JoinedBoth(m0: Blocks, m1: Blocks, m2: Blocks, r: nat, n: nat, s: nat, e: nat)
    requires n > 0 && s == LeftEdge(m0, r) && s <= r
    requires m1 == if s == r then m0 else (m0 - {r})[s := Out(r + n - s)]
    requires e == RightEdge(m1, r + n) && m2 == if e == r + n then m1 else (m1 - {r + n})[s := Out(e - s)]
    requires r in m0 && r + n <= e
    ensures e == RightEdge(m0, r + n)
    ensures m2 - {s} == Around(m0, r, n) && m2[s := Large(e - s)] == Around(m0, r, n)[s := Large(e - s)]
  {
    hide LeftEdge;
  }

  ghost predicate NoLargeBefore(m: Blocks, s: nat) {
    forall t :: t in m && m[t].Large? ==> t + m[t].n != s
  }

  ghost predicate NoLargeAt(m: Blocks, e: nat) {
    e in m ==> !m[e].Large?
  }

  lemma LeftNeighbour(st: State, s: nat)
    requires ArenaOk(st)
    ensures s !in st.byEnd ==> NoLargeBefore(st.m, s)
    ensures s in st.byEnd ==>
      && var p := st.byEnd[s];
      && p in st.byStart && p in st.m && st.m[p] == Large(st.byStart[p]) && p + st.byStart[p] == s
      && NoLargeBefore(st.m, p)
    ensures LeftEdge(st.m, s) == if s in st.byEnd then st.byEnd[s] else s
  {
    hide SmallLists, LargeLists, Sum;
    if s in st.byEnd {
      var p := st.byEnd[s];
      assert st.m[p].Large?;
      assert EndsAt(st.m, p, s);
    }
    forall t: nat | EndsAt(st.m, t, s) ensures s in st.byEnd && st.byEnd[s] == t {
      assert t in st.byStart;
    }
  }

  lemma RightNeighbour(st: State, e: nat)
    requires ArenaOk(st)
    ensures e !in st.byStart ==> NoLargeAt(st.m, e)
    ensures e in st.byStart ==>
      && e in st.m && st.m[e] == Large(st.byStart[e]) && st.byStart[e] > 0
      && NoLargeAt(st.m, e + st.byStart[e]) && e + st.byStart[e] != st.bump
    ensures RightEdge(st.m, e) == if e in st.byStart then e + st.byStart[e] else e
  {
    hide SmallLists, LargeLists, Sum, Disjoint;
    if e in st.byStart { assert BlockOk(st.m[e]); }
  }

  lemma NoLargeMerged(m0: Blocks, m: Blocks, s: nat, t: nat, p: nat, n: nat, k: nat, e: nat)
    requires m == m0[p := Out(n)] && NoLargeBefore(m0, s) && NoLargeAt(m0, e)
    ensures NoLargeBefore((m - {t})[s := Out(k)], s) && NoLargeAt((m - {t})[s := Out(k)], e)
  {
  }

  /** A merged block is ready for its bucket, or for giving up. */
  lemma HandReady(st: State, s: nat, n: nat)
    requires s in st.m && st.m[s] == Out(n) && NoLargeBefore(st.m, s) && NoLargeAt(st.m, s + n)
    ensures n > LARGE_THRESHOLD && s + n != st.bump ==> Insertable(st, s, n)
    ensures forall t :: t in st.m && st.m[t].Large? ==> t + st.m[t].n != s
  {
  }

  /** One step along a LARGE bucket. */
  lemma NextInBucket(st: State, s: nat, c: nat)
    requires ArenaOk(st) && c < NUM_LARGE && InBucket(st.m, s, c)
    ensures s + 2 < |st.ws| && st.ws[s + 1] == st.m[s].n && s in st.largeAfter && s != 0
    ensures st.ws[s] != 0 ==> InBucket(st.m, st.ws[s], c) && st.ws[s] in st.largeAfter
    ensures Behind(st.largeAfter, s) == {s} + Behind(st.largeAfter, st.ws[s]) && s !in Behind(st.largeAfter, st.ws[s])
  {
    hide SmallLists, Sum, Coalesced, Indexed, InRange, Disjoint;
    assert |st.largeHeads| == NUM_LARGE && LargeNode(st.ws, st.largeHeads[c], st.m, st.largeAfter, s, c);
  }

  lemma BucketStart(st: State, c: nat)
    requires ArenaOk(st) && c < NUM_LARGE
    ensures |st.largeHeads| == NUM_LARGE
    ensures st.largeHeads[c] != 0 ==> InBucket(st.m, st.largeHeads[c], c) && st.largeHeads[c] in st.largeAfter
    ensures forall s :: InBucket(st.m, s, c) ==> s in Behind(st.largeAfter, st.largeHeads[c])
  {
    hide SmallLists, Sum, Coalesced, Indexed, InRange, Disjoint, LargeNode;
    assert LargeHead(st.ws, st.largeHeads[c], st.m, st.largeAfter, c);
  }

  ghost predicate TooSmall(m: Blocks, s: nat, need: nat) {
    s in m && m[s].Large? && m[s].n < need
  }

  lemma BucketSizes(m: Blocks, s: nat, c: nat)
    requires InBucket(m, s, c)
    ensures s in m && m[s].Large? && m[s].n > LARGE_THRESHOLD
  {
  }

  /** Buckets below the first one scanned hold only smaller blocks; the rest were scanned. */
  lemma NothingFits(st: State, need: nat)
    requires ArenaOk(st) && need > LARGE_THRESHOLD
    requires forall s: nat, c: nat :: LargeClass(need) <= c < NUM_LARGE && InBucket(st.m, s, c) ==>
      TooSmall(st.m, s, need)
    ensures forall s :: s in st.m && st.m[s].Large? ==> st.m[s].n < need
  {
    hide SmallLists, LargeLists, Sum, Coalesced, Indexed, Disjoint;
    forall s | s in st.m && st.m[s].Large? ensures st.m[s].n < need {
      assert BlockOk(st.m[s]);
      var c := LargeClass(st.m[s].n);
      assert InBucket(st.m, s, c);
      if st.m[s].n >= need { LargeClassMonotone(need, st.m[s].n); }
    }
  }

  lemma RightOfLarge(st: State, s: nat)
    requires ArenaOk(st) && s in st.m && st.m[s].Large?
    ensures NoLargeAt(st.m[s := Out(st.m[s].n)], s + st.m[s].n) && s + st.m[s].n != st.bump
  {
    hide SmallLists, LargeLists, Sum, Indexed, Disjoint;
  }

  lemma InHandFrom(m0: Blocks, m1: Blocks, m: Blocks, s: nat, bw: nat, need: nat)
    requires s in m0 && m0[s].Large? && m1 == m0[s := Out(bw)] && InHand(m1, m, s, s, need)
    ensures InHand(m0[s := Out(need)], m, s, s, need)
  {
  }

  lemma KeepsContentsTwice(a: Words, b: Words, c: Words, m0: Blocks, m1: Blocks, s: nat, n: nat)
    requires KeepsContents(a, b, m0) && KeepsContents(b, c, m1 - {s})
    requires s in m0 && !m0[s].Out? && m1 == m0[s := Out(n)]
    ensures KeepsContents(a, c, m0)
  {
    KeepsContentsTransitive(a, b, c, m0, m1 - {s});
  }

  lemma ZeroAbove(st: State, ws: Words, keep: nat)
    requires ArenaOk(st) && st.bump <= keep <= |ws| && keep <= |st.ws|
    requires forall j :: 0 <= j < keep ==> ws[j] == st.ws[j]
    requires forall j :: keep <= j < |ws| ==> ws[j] == 0
    ensures ZeroFrom(ws, st.bump)
  {
  }

  function Min(a: nat, b: nat): nat { if a < b then a else b }

  lemma PoppedContents(a: Words, b: Words, m0: Blocks, m: Blocks, r: nat, n: nat)
    requires r in m0 && !m0[r].Out? && m == m0[r := Out(n)]
    requires KeepsContents(a, b, m - {r}) && r + n <= |b| && b[r..r + n] == Zeros(n)
    ensures r !in Held(a, m0) && Held(b, m) == Held(a, m0)[r := Zeros(n)]
  {
    KeepsContentsLess(a, b, m - {r}, m0 - {r});
    HeldWith(a, b, m0, m, r);
  }

  lemma FitContents(a: Words, b: Words, c: Words, m0: Blocks, m: Blocks, r: nat, n: nat)
    requires r in m0 && !m0[r].Out? && InHand(m0[r := Out(n)], m, r, r, n)
    requires KeepsContents(a, b, m0) && KeepsContents(b, c, m - {r})
    requires r + n <= |c| && c[r..r + n] == Zeros(n)
    ensures r !in Held(a, m0) && Held(c, m) == Held(a, m0)[r := Zeros(n)]
  {
    KeepsContentsTransitive(a, b, c, m0, m - {r});
    KeepsContentsLess(a, c, m0, m0 - {r});
    HeldWith(a, c, m0, m, r);
  }

  lemma CarvedContents(st: State, n: nat)
    requires ArenaOk(st) && n > 0 && st.bump + n <= |st.ws| && st.bump !in st.m
    ensures st.bump !in Held(st.ws, st.m)
    ensures Held(st.ws, st.m[st.bump := Out(n)]) == Held(st.ws, st.m)[st.bump := Zeros(n)]
  {
    hide SmallLists, LargeLists, Sum, Coalesced, Indexed;
    var m' := st.m[st.bump := Out(n)];
    forall s | s in st.m && st.m[s].Out? ensures SameBlock(st.ws, st.ws, s, st.m[s].n) {
      assert s + Len(st.m[s]) <= st.bump;
    }
    assert st.ws[st.bump..st.bump + n] == Zeros(n);
    HeldWith(st.ws, st.ws, st.m, m', st.bump);
  }
}
