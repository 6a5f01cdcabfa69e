/** The free lists threaded through the words of free blocks (internal/arena/freelist.go:105-260).

    A small bucket is singly linked through word 0. A LARGE bucket is doubly linked: word 0 is the
    next block, word 1 the size, word 2 the previous block; 0 ends a list. `after[s]` is the set of
    blocks at or behind s in its list, which the links determine: it says that lists end, and that
    every free block is on one. */
module FreeLists {
  import opened SizeClasses
  import opened ArenaLayout

  type Words = seq<nat>
  type After = map<nat, set<nat>>

  ghost function Behind(after: After, s: nat): set<nat> {
    if s != 0 && s in after then after[s] else {}
  }

  /** With one block gone from what follows each. */
  ghost function Without(after: After, s: nat): After {
    map t | t in after :: after[t] - {s}
  }

  // ---- small buckets ----

  ghost predicate IsSmall(m: Blocks, s: nat, c: nat) {
    s in m && m[s] == Small(c)
  }

  ghost predicate SmallNode(ws: Words, m: Blocks, after: After, s: nat, c: nat) {
    && 0 < s < |ws| && s in after
    && (ws[s] != 0 ==> IsSmall(m, ws[s], c) && ws[s] in after)
    && after[s] == {s} + Behind(after, ws[s])
    && s !in Behind(after, ws[s])
    && (forall t :: t in after[s] ==> IsSmall(m, t, c))
  }

  ghost predicate SmallHead(h: nat, m: Blocks, after: After, c: nat) {
    && (h != 0 ==> IsSmall(m, h, c) && h in after)
    && (forall s :: IsSmall(m, s, c) ==> h != 0 && s in Behind(after, h))
  }

  ghost predicate SmallLists(ws: Words, heads: seq<nat>, m: Blocks, after: After) {
    && |heads| == NUM_CLASSES
    && (forall s, c {:trigger SmallNode(ws, m, after, s, c)} :: IsSmall(m, s, c) ==> SmallNode(ws, m, after, s, c))
    && (forall c: nat {:trigger SmallHead(heads[c], m, after, c)} :: c < NUM_CLASSES ==>
      SmallHead(heads[c], m, after, c))
  }

  /** The same blocks are free in small buckets. */
  ghost predicate SameSmall(m: Blocks, m': Blocks) {
    forall s, c :: IsSmall(m, s, c) <==> IsSmall(m', s, c)
  }

  lemma KeepSmall(ws: Words, ws': Words, heads: seq<nat>, m: Blocks, m': Blocks, after: After)
    requires SmallLists(ws, heads, m, after) && SameSmall(m, m')
    requires forall s :: s in m && m[s].Small? && s < |ws| ==> s < |ws'| && ws'[s] == ws[s]
    ensures SmallLists(ws', heads, m', after)
  {
    forall s: nat, c: nat | IsSmall(m', s, c) ensures SmallNode(ws', m', after, s, c) {
      assert IsSmall(m, s, c) && SmallNode(ws, m, after, s, c);
    }
    forall c: nat | c < NUM_CLASSES ensures SmallHead(heads[c], m', after, c) {
      assert SmallHead(heads[c], m, after, c);
    }
  }

  lemma PushSmall(ws: Words, heads: seq<nat>, m: Blocks, after: After, c: nat, s: nat)
    requires SmallLists(ws, heads, m, after) && c < NUM_CLASSES && 0 < s < |ws|
    requires s in m ==> !m[s].Small?
    ensures SmallLists(ws[s := heads[c]], heads[c := s], m[s := Small(c)], after[s := {s} + Behind(after, heads[c])])
  {
    var h := heads[c];
    var ws', heads', m', after' := ws[s := h], heads[c := s], m[s := Small(c)], after[s := {s} + Behind(after, h)];
    assert SmallHead(h, m, after, c);
    if h != 0 { assert SmallNode(ws, m, after, h, c); }
    assert !IsSmall(m, s, c);
    forall t: nat, d: nat | IsSmall(m', t, d) ensures SmallNode(ws', m', after', t, d) {
      if t != s {
        assert IsSmall(m, t, d) && SmallNode(ws, m, after, t, d);
        assert !IsSmall(m, s, d);
      }
    }
    forall d: nat | d < NUM_CLASSES ensures SmallHead(heads'[d], m', after', d) {
      assert SmallHead(heads[d], m, after, d);
      forall t: nat | IsSmall(m', t, d) ensures heads'[d] != 0 && t in Behind(after', heads'[d]) {
        if t != s { assert IsSmall(m, t, d); }
      }
    }
  }

  lemma PopSmall(ws: Words, heads: seq<nat>, m: Blocks, after: After, c: nat, b: Block)
    requires SmallLists(ws, heads, m, after) && c < NUM_CLASSES && heads[c] != 0 && !b.Small?
    ensures heads[c] in m && m[heads[c]] == Small(c) && heads[c] < |ws|
    ensures SmallLists(ws, heads[c := ws[heads[c]]], m[heads[c] := b], Without(after, heads[c]))
  {
    var h := heads[c];
    assert SmallHead(h, m, after, c) && SmallNode(ws, m, after, h, c);
    var x := ws[h];
    var heads', m', after' := heads[c := x], m[h := b], Without(after, h);
    forall t: nat, d: nat | IsSmall(m', t, d) ensures SmallNode(ws, m', after', t, d) {
      assert IsSmall(m, t, d) && SmallNode(ws, m, after, t, d);
      assert IsSmall(m, t, c) ==> t in after[h];
      assert ws[t] != h;
      assert after'[t] == {t} + Behind(after', ws[t]);
    }
    forall d: nat | d < NUM_CLASSES ensures SmallHead(heads'[d], m', after', d) {
      assert SmallHead(heads[d], m, after, d);
      if d == c {
        if x != 0 { assert SmallNode(ws, m, after, x, c); }
        forall t: nat | IsSmall(m', t, c) ensures x != 0 && t in Behind(after', x) {
          assert IsSmall(m, t, c) && t in after[h];
        }
      } else {
        forall t: nat | IsSmall(m', t, d) ensures heads[d] != 0 && t in Behind(after', heads[d]) {
          assert IsSmall(m, t, d);
        }
      }
    }
  }

  // ---- LARGE buckets ----

  ghost predicate InBucket(m: Blocks, s: nat, c: nat) {
    s in m && m[s].Large? && m[s].n > LARGE_THRESHOLD && LargeClass(m[s].n) == c
  }

  ghost predicate LargeNode(ws: Words, h: nat, m: Blocks, after: After, s: nat, c: nat)
    requires s in m && m[s].Large?
  {
    && 0 < s && s + 2 < |ws| && s in after
    && ws[s + 1] == m[s].n
    && (ws[s] != 0 ==> InBucket(m, ws[s], c) && ws[s] in after && ws[s] + 2 < |ws| && ws[ws[s] + 2] == s)
    && (if ws[s + 2] == 0 then h == s else InBucket(m, ws[s + 2], c) && ws[s + 2] < |ws| && ws[ws[s + 2]] == s)
    && after[s] == {s} + Behind(after, ws[s])
    && s !in Behind(after, ws[s])
    && (forall t :: t in after[s] ==> InBucket(m, t, c))
  }

  ghost predicate LargeHead(ws: Words, h: nat, m: Blocks, after: After, c: nat) {
    && (h != 0 ==> InBucket(m, h, c) && h in after && h + 2 < |ws| && ws[h + 2] == 0)
    && (forall s :: InBucket(m, s, c) ==> h != 0 && s in Behind(after, h))
  }

  ghost predicate LargeLists(ws: Words, heads: seq<nat>, m: Blocks, after: After) {
    && |heads| == NUM_LARGE
    && (forall s, c: nat {:trigger LargeNode(ws, heads[c], m, after, s, c)} :: c < NUM_LARGE && InBucket(m, s, c) ==>
      LargeNode(ws, heads[c], m, after, s, c))
    && (forall c: nat {:trigger LargeHead(ws, heads[c], m, after, c)} :: c < NUM_LARGE ==>
      LargeHead(ws, heads[c], m, after, c))
  }

  /** The three list words of s are the same. */
  ghost predicate SameHeader(ws: Words, ws': Words, s: nat) {
    s + 2 < |ws| ==> s + 2 < |ws'| && ws'[s] == ws[s] && ws'[s + 1] == ws[s + 1] && ws'[s + 2] == ws[s + 2]
  }

  ghost predicate SameHeaders(ws: Words, ws': Words, m: Blocks) {
    forall s, c {:trigger InBucket(m, s, c)} :: InBucket(m, s, c) ==> SameHeader(ws, ws', s)
  }

  lemma KeepLarge(ws: Words, ws': Words, heads: seq<nat>, m: Blocks, m': Blocks, after: After)
    requires LargeLists(ws, heads, m, after) && SameHeaders(ws, ws', m)
    requires forall s, c :: InBucket(m', s, c) <==> InBucket(m, s, c)
    requires forall s, c :: InBucket(m', s, c) ==> m'[s] == m[s]
    ensures LargeLists(ws', heads, m', after)
  {
    forall s: nat, c: nat | c < NUM_LARGE && InBucket(m', s, c) ensures LargeNode(ws', heads[c], m', after, s, c) {
      assert InBucket(m, s, c) && LargeNode(ws, heads[c], m, after, s, c);
      assert SameHeader(ws, ws', s);
      if ws[s] != 0 { assert InBucket(m, ws[s], c) && SameHeader(ws, ws', ws[s]); }
      if ws[s + 2] != 0 {
        assert InBucket(m, ws[s + 2], c) && LargeNode(ws, heads[c], m, after, ws[s + 2], c);
        assert SameHeader(ws, ws', ws[s + 2]);
      }
    }
    forall c: nat | c < NUM_LARGE ensures LargeHead(ws', heads[c], m', after, c) {
      assert LargeHead(ws, heads[c], m, after, c);
      if heads[c] != 0 { assert SameHeader(ws, ws', heads[c]); }
    }
  }

  /** LARGE blocks lie at least three words apart. */
  ghost predicate Spread(m: Blocks) {
    forall s, t :: s in m && t in m && m[s].Large? && m[t].Large? && s < t ==> s + 2 < t
  }

  /** `ws` after s was hooked in front of a list starting at head. */
  function Hooked(ws: Words, s: nat, n: nat, head: nat): (r: Words)
    requires s + 2 < |ws| && head + 2 < |ws|
    ensures |r| == |ws|
  {
    var w := ws[s := head][s + 1 := n][s + 2 := 0];
    if head != 0 then w[head + 2 := s] else w
  }

  /** What hooking s in front of h does to the list words of the blocks there before. */
  ghost predicate HookedWords(ws: Words, ws': Words, m: Blocks, s: nat, h: nat) {
    forall t: nat, d: nat {:trigger InBucket(m, t, d)} :: InBucket(m, t, d) ==>
      && t != s && t + 2 < |ws| == |ws'|
      && ws'[t] == ws[t] && ws'[t + 1] == ws[t + 1]
      && ws'[t + 2] == if t == h then s else ws[t + 2]
  }

  lemma HookedWordsHold(ws: Words, heads: seq<nat>, m: Blocks, after: After, s: nat, n: nat, h: nat)
    requires LargeLists(ws, heads, m, after) && Spread(m[s := Large(n)])
    requires 0 < s && s + 2 < |ws| && h + 2 < |ws|
    requires s in m ==> !m[s].Large?
    requires h != 0 ==> h in m && m[h].Large?
    ensures HookedWords(ws, Hooked(ws, s, n, h), m, s, h)
  {
    var m', ws' := m[s := Large(n)], Hooked(ws, s, n, h);
    assert s in m' && m'[s].Large?;
    if h != 0 { assert h in m' && m'[h].Large? && h != s; }
    forall t: nat, d: nat | InBucket(m, t, d)
      ensures t != s && t + 2 < |ws| == |ws'|
      ensures ws'[t] == ws[t] && ws'[t + 1] == ws[t + 1]
      ensures ws'[t + 2] == if t == h then s else ws[t + 2]
    {
      assert LargeNode(ws, heads[d], m, after, t, d);
      assert t in m' && m'[t].Large?;
    }
  }

  lemma InsertLargeOk(ws: Words, heads: seq<nat>, m: Blocks, after: After, s: nat, n: nat)
    requires LargeLists(ws, heads, m, after) && Spread(m[s := Large(n)])
    requires 0 < s && s + 2 < |ws| && n > LARGE_THRESHOLD
    requires s in m ==> !m[s].Large?
    ensures heads[LargeClass(n)] + 2 < |ws|
    ensures var c := LargeClass(n);
      LargeLists(Hooked(ws, s, n, heads[c]), heads[c := s], m[s := Large(n)], after[s := {s} + Behind(after, heads[c])])
  {
    var c := LargeClass(n);
    var h := heads[c];
    assert LargeHead(ws, h, m, after, c);
    var ws', heads', m', after' := Hooked(ws, s, n, h), heads[c := s], m[s := Large(n)],
      after[s := {s} + Behind(after, h)];
    HookedWordsHold(ws, heads, m, after, s, n, h);
    if h != 0 { assert LargeNode(ws, h, m, after, h, c); }
    assert InBucket(m', s, c) && !InBucket(m, s, c);
    if h != 0 { assert h in m' && m'[h].Large? && s in m' && m'[s].Large?; }
    HookedSelf(ws, s, n, h);
    hide Hooked, Spread, LargeClass;
    forall t: nat, d: nat | d < NUM_LARGE && InBucket(m', t, d) ensures LargeNode(ws', heads'[d], m', after', t, d) {
      if t != s {
        assert InBucket(m, t, d) && LargeNode(ws, heads[d], m, after, t, d);
        HookedNode(ws, ws', heads[d], heads'[d], m, after, s, n, c, h, t, d);
      }
    }
    forall d: nat | d < NUM_LARGE ensures LargeHead(ws', heads'[d], m', after', d) {
      assert LargeHead(ws, heads[d], m, after, d);
      HookedHead(ws, ws', heads[d], heads'[d], m, after, s, n, c, h, d);
    }
  }

  lemma HookedHead(ws: Words, ws': Words, hd: nat, hd': nat, m: Blocks, after: After, s: nat, n: nat, c: nat, h: nat,
                   d: nat)
    requires (s in m ==> !m[s].Large?) && n > LARGE_THRESHOLD && LargeClass(n) == c && s > 0
    requires LargeHead(ws, hd, m, after, d)
    requires HookedWords(ws, ws', m, s, h)
    requires d == c ==> hd == h && hd' == s
    requires d != c ==> hd' == hd
    requires h != 0 ==> InBucket(m, h, c)
    requires s + 2 < |ws'| && ws'[s + 2] == 0
    ensures LargeHead(ws', hd', m[s := Large(n)], after[s := {s} + Behind(after, h)], d)
  {
    var m', after' := m[s := Large(n)], after[s := {s} + Behind(after, h)];
    assert InBucket(m', s, c) && forall e: nat :: !InBucket(m, s, e);
    if hd != 0 { assert InBucket(m, hd, d) && InBucket(m', hd, d); }
    forall t: nat | InBucket(m', t, d) ensures hd' != 0 && t in Behind(after', hd') {
      if t != s { assert InBucket(m, t, d); }
    }
  }

  /** A block that was in a list before s was hooked in front of h, the head of bucket c. */
  lemma HookedNode(ws: Words, ws': Words, hd: nat, hd': nat, m: Blocks, after: After, s: nat, n: nat, c: nat, h: nat,
                   t: nat, d: nat)
    requires (s in m ==> !m[s].Large?) && n > LARGE_THRESHOLD && LargeClass(n) == c && s > 0
    requires InBucket(m, t, d) && LargeNode(ws, hd, m, after, t, d)
    requires HookedWords(ws, ws', m, s, h)
    requires d == c ==> hd == h && hd' == s
    requires d != c ==> hd' == hd
    requires h != 0 ==> InBucket(m, h, c) && ws[h + 2] == 0
    requires s + 2 < |ws'| && ws'[s] == h
    ensures LargeNode(ws', hd', m[s := Large(n)], after[s := {s} + Behind(after, h)], t, d)
  {
    var after' := after[s := {s} + Behind(after, h)];
    assert forall e: nat :: !InBucket(m, s, e);
    if ws[t] != 0 { assert InBucket(m, ws[t], d) && ws[t] != h; }
    if ws[t + 2] != 0 { assert InBucket(m, ws[t + 2], d); }
    assert Behind(after', ws'[t]) == Behind(after, ws[t]);
    var m' := m[s := Large(n)];
    assert InBucket(m', s, c);
    forall u: nat | u in after[t] ensures InBucket(m', u, d) { assert InBucket(m, u, d); }
  }

  lemma HookedSelf(ws: Words, s: nat, n: nat, h: nat)
    requires s + 2 < |ws| && h + 2 < |ws| && (h == 0 || h + 2 < s || s + 2 < h)
    ensures var ws' := Hooked(ws, s, n, h);
      |ws'| == |ws| && ws'[s] == h && ws'[s + 1] == n && ws'[s + 2] == 0 && (h != 0 ==> ws'[h + 2] == s)
  {
  }

  /** `ws` after a block between prev and next was unhooked. */
  function Unhooked(ws: Words, prev: nat, next: nat): (r: Words)
    requires prev + 2 < |ws| && next + 2 < |ws|
    ensures |r| == |ws|
  {
    var w := if prev == 0 then ws else ws[prev := next];
    if next == 0 then w else w[next + 2 := prev]
  }

  /** What unhooking does to the list words of the blocks: one word of each neighbour changes. */
  ghost predicate UnhookedWords(ws: Words, ws': Words, m: Blocks, prev: nat, next: nat) {
    forall t: nat, d: nat {:trigger InBucket(m, t, d)} :: InBucket(m, t, d) ==>
      && t + 2 < |ws| == |ws'|
      && ws'[t + 1] == ws[t + 1]
      && ws'[t] == (if t == prev then next else ws[t])
      && ws'[t + 2] == if t == next then prev else ws[t + 2]
  }

  lemma UnhookedWordsHold(ws: Words, heads: seq<nat>, m: Blocks, after: After, prev: nat, next: nat)
    requires LargeLists(ws, heads, m, after) && Spread(m)
    requires prev + 2 < |ws| && next + 2 < |ws| && (prev == 0 || prev != next)
    requires prev != 0 ==> prev in m && m[prev].Large?
    requires next != 0 ==> next in m && m[next].Large?
    ensures UnhookedWords(ws, Unhooked(ws, prev, next), m, prev, next)
  {
    forall t: nat, d: nat | InBucket(m, t, d)
      ensures 0 < t && t + 2 < |ws|
      ensures prev != 0 && t < prev ==> t + 2 < prev
      ensures prev != 0 && prev < t ==> prev + 2 < t
      ensures next != 0 && t < next ==> t + 2 < next
      ensures next != 0 && next < t ==> next + 2 < t
    {
      assert LargeNode(ws, heads[d], m, after, t, d);
      assert t in m && m[t].Large?;
    }
  }

  /** A block left in bucket d after s was unhooked from bucket c; hc and hd are the buckets' heads. */
  lemma UnlinkedNode(ws: Words, ws': Words, hc: nat, hd: nat, hd': nat, m: Blocks, after: After, s: nat, c: nat,
                     t: nat, d: nat)
    requires InBucket(m, s, c) && LargeNode(ws, hc, m, after, s, c)
    requires InBucket(m, t, d) && LargeNode(ws, hd, m, after, t, d) && t != s
    requires c == d ==> hc == hd
    requires UnhookedWords(ws, ws', m, ws[s + 2], ws[s])
    requires hd' == if d == c && ws[s + 2] == 0 then ws[s] else hd
    ensures LargeNode(ws', hd', m - {s}, map u | u in after :: after[u] - {s}, t, d)
  {
    var after' := map u | u in after :: after[u] - {s};
    assert ws[t] == s ==> t == ws[s + 2];
    assert ws[t + 2] == s ==> t == ws[s];
    assert after'[t] == {t} + Behind(after', ws'[t]);
  }

  lemma UnlinkLargeOk(ws: Words, heads: seq<nat>, m: Blocks, after: After, s: nat)
    requires LargeLists(ws, heads, m, after) && Spread(m)
    requires s in m && m[s].Large? && m[s].n > LARGE_THRESHOLD
    ensures s + 2 < |ws| && ws[s] + 2 < |ws| && ws[s + 2] + 2 < |ws|
    ensures var c := LargeClass(m[s].n);
      LargeLists(Unhooked(ws, ws[s + 2], ws[s]),
                 if ws[s + 2] == 0 then heads[c := ws[s]] else heads,
                 m - {s}, Without(after, s))
  {
    var c := LargeClass(m[s].n);
    assert InBucket(m, s, c) && LargeNode(ws, heads[c], m, after, s, c);
    var x, p := ws[s], ws[s + 2];
    if p != 0 {
      assert LargeNode(ws, heads[c], m, after, p, c);
      assert p in after[p];
    }
    if x != 0 { assert LargeNode(ws, heads[c], m, after, x, c); }
    var ws', m', after' := Unhooked(ws, p, x), m - {s}, Without(after, s);
    var heads' := if p == 0 then heads[c := x] else heads;
    UnhookedWordsHold(ws, heads, m, after, p, x);
    hide Unhooked, Spread, LargeClass;
    forall t: nat, d: nat | d < NUM_LARGE && InBucket(m', t, d) ensures LargeNode(ws', heads'[d], m', after', t, d) {
      assert InBucket(m, t, d) && LargeNode(ws, heads[d], m, after, t, d);
      UnlinkedNode(ws, ws', heads[c], heads[d], heads'[d], m, after, s, c, t, d);
    }
    forall d: nat | d < NUM_LARGE ensures LargeHead(ws', heads'[d], m', after', d) {
      UnlinkedHead(ws, ws', heads[c], heads[d], heads'[d], m, after, s, c, d);
    }
  }

  lemma UnlinkedHead(ws: Words, ws': Words, hc: nat, hd: nat, hd': nat, m: Blocks, after: After, s: nat, c: nat, d: nat)
    requires InBucket(m, s, c) && LargeNode(ws, hc, m, after, s, c)
    requires LargeHead(ws, hd, m, after, d)
    requires c == d ==> hc == hd
    requires UnhookedWords(ws, ws', m, ws[s + 2], ws[s])
    requires hd' == if d == c && ws[s + 2] == 0 then ws[s] else hd
    requires ws[s] != 0 ==> ws[s + 2] != ws[s]
    ensures LargeHead(ws', hd', m - {s}, map u | u in after :: after[u] - {s}, d)
  {
    var m', after' := m - {s}, map u | u in after :: after[u] - {s};
    if hd != 0 { assert InBucket(m, hd, d); }
    if ws[s] != 0 { assert InBucket(m, ws[s], c); }
    forall t: nat | InBucket(m', t, d) ensures hd' != 0 && t in Behind(after', hd') {
      assert InBucket(m, t, d) && t in after[hd];
    }
  }
}
