/** How the arena below the bump pointer is divided into blocks. Addresses and sizes are in words;
    word 0 is reserved. */
module ArenaLayout {
  import opened SizeClasses

  /** Handed out; free in a small bucket; free in a LARGE bucket; dropped by a split. */
  datatype Block = Out(n: nat) | Small(c: nat) | Large(n: nat) | Tail(n: nat)

  type Blocks = map<nat, Block>

  const MAX_TAIL: nat := 7

  function Len(b: Block): nat {
    match b
    case Out(n) => n
    case Small(c) => if c < NUM_CLASSES then ClassWords(c) else 1
    case Large(n) => n
    case Tail(n) => n
  }

  function OutLen(b: Block): nat { if b.Out? then b.n else 0 }
  function FreeLen(b: Block): nat { if b.Small? || b.Large? then Len(b) else 0 }
  function TailLen(b: Block): nat { if b.Tail? then b.n else 0 }

  predicate BlockOk(b: Block) {
    match b
    case Out(n) => n > 0
    case Small(c) => c < NUM_CLASSES
    case Large(n) => n > LARGE_THRESHOLD
    case Tail(n) => 0 < n <= MAX_TAIL
  }

  ghost function Sum(m: Blocks, f: Block -> nat): nat {
    if m == map[] then 0
    else
      var k :| k in m;
      f(m[k]) + Sum(m - {k}, f)
  }

  lemma {:induction false} SumRemove(m: Blocks, f: Block -> nat, k: nat)
    requires k in m
    ensures Sum(m, f) == f(m[k]) + Sum(m - {k}, f)
    decreases m
  {
    var j :| j in m && Sum(m, f) == f(m[j]) + Sum(m - {j}, f);
    if j != k {
      SumRemove(m - {j}, f, k);
      SumRemove(m - {k}, f, j);
      assert m - {j} - {k} == m - {k} - {j};
    }
  }

  lemma SumInsert(m: Blocks, f: Block -> nat, k: nat, b: Block)
    ensures Sum(m[k := b], f) == f(b) + Sum(m - {k}, f)
  {
    SumRemove(m[k := b], f, k);
    assert m[k := b] - {k} == m - {k};
  }

  lemma SumUpdate(m: Blocks, f: Block -> nat, s: nat, b: Block)
    requires s in m
    ensures Sum(m[s := b], f) + f(m[s]) == Sum(m, f) + f(b)
  {
    SumRemove(m, f, s);
    SumInsert(m, f, s, b);
  }

  lemma SumMerge(m: Blocks, f: Block -> nat, s: nat, t: nat, b: Block)
    requires s in m && t in m && s != t && f(b) == f(m[s]) + f(m[t])
    ensures Sum((m - {t})[s := b], f) == Sum(m, f)
  {
    SumRemove(m, f, t);
    SumRemove(m - {t}, f, s);
    SumInsert(m - {t}, f, s, b);
  }

  lemma {:induction false} SumZero(m: Blocks, f: Block -> nat)
    requires forall k :: k in m ==> f(m[k]) == 0
    ensures Sum(m, f) == 0
    decreases m
  {
    if m != map[] {
      var k :| k in m;
      SumRemove(m, f, k);
      SumZero(m - {k}, f);
    }
  }

  /** Every block is outstanding, free or a dropped tail. */
  lemma {:induction false} SumSplit(m: Blocks)
    ensures Sum(m, Len) == Sum(m, OutLen) + Sum(m, FreeLen) + Sum(m, TailLen)
    decreases m
  {
    if m != map[] {
      var k :| k in m;
      SumRemove(m, Len, k);
      SumRemove(m, OutLen, k);
      SumRemove(m, FreeLen, k);
      SumRemove(m, TailLen, k);
      SumSplit(m - {k});
    }
  }

  /** The blocks are disjoint, lie in [1, bump), and fill it. */
  ghost predicate Tiled(m: Blocks, bump: nat) {
    && bump >= 1
    && InRange(m, bump)
    && Disjoint(m)
    && Sum(m, Len) == bump - 1
  }

  ghost predicate InRange(m: Blocks, bump: nat) {
    forall s :: s in m ==> 1 <= s && BlockOk(m[s]) && s + Len(m[s]) <= bump
  }

  ghost predicate Disjoint(m: Blocks) {
    forall s, t :: s in m && t in m && s < t ==> s + Len(m[s]) <= t
  }

  lemma RetagTiled(m: Blocks, bump: nat, s: nat, b: Block)
    requires Tiled(m, bump) && s in m && BlockOk(b) && Len(b) == Len(m[s])
    ensures Tiled(m[s := b], bump)
  {
    hide Sum, Disjoint, InRange;
    RetagSum(m, s, b);
    RetagInRange(m, bump, s, b);
    RetagDisjoint(m, s, b);
  }

  lemma RetagSum(m: Blocks, s: nat, b: Block)
    requires s in m && Len(b) == Len(m[s])
    ensures Sum(m[s := b], Len) == Sum(m, Len)
  {
    SumUpdate(m, Len, s, b);
  }

  lemma RetagInRange(m: Blocks, bump: nat, s: nat, b: Block)
    requires InRange(m, bump) && s in m && BlockOk(b) && Len(b) == Len(m[s])
    ensures InRange(m[s := b], bump)
  {
    hide Len, BlockOk;
  }

  lemma RetagDisjoint(m: Blocks, s: nat, b: Block)
    requires Disjoint(m) && s in m && Len(b) == Len(m[s])
    ensures Disjoint(m[s := b])
  {
    hide Len;
    var m' := m[s := b];
    forall u, v | u in m' && v in m' && u < v ensures u + Len(m'[u]) <= v {
      assert u + Len(m[u]) <= v && Len(m'[u]) == Len(m[u]);
    }
  }

  lemma AppendTiled(m: Blocks, bump: nat, b: Block)
    requires Tiled(m, bump) && BlockOk(b)
    ensures bump !in m && Tiled(m[bump := b], bump + Len(b))
  {
    assert bump !in m;
    assert m - {bump} == m;
    SumInsert(m, Len, bump, b);
  }

  lemma RetreatTiled(m: Blocks, bump: nat, s: nat)
    requires Tiled(m, bump) && s in m && s + Len(m[s]) == bump
    ensures Tiled(m - {s}, s)
  {
    SumRemove(m, Len, s);
    forall t | t in m && t != s ensures t + Len(m[t]) <= s {
      assert s + Len(m[s]) <= t || t <= s;
    }
  }

  /** One block becomes two. */
  lemma SplitTiled(m: Blocks, bump: nat, s: nat, a: Block, b: Block)
    requires Tiled(m, bump) && s in m && BlockOk(a) && BlockOk(b) && Len(a) + Len(b) == Len(m[s])
    requires Len(a) > 0 && Len(b) > 0
    ensures s + Len(a) !in m
    ensures Tiled(m[s := a][s + Len(a) := b], bump)
  {
    hide Sum, Disjoint;
    var t := s + Len(a);
    SplitDisjoint(m, s, a, b);
    SplitSum(m, s, t, a, b);
  }

  lemma SplitSum(m: Blocks, s: nat, t: nat, a: Block, b: Block)
    requires s in m && s != t && Len(a) + Len(b) == Len(m[s])
    requires t !in m
    ensures Sum(m[s := a][t := b], Len) == Sum(m, Len)
  {
    SumRemove(m, Len, s);
    SumInsert(m, Len, s, a);
    assert m[s := a] - {t} == m[s := a];
    SumInsert(m[s := a], Len, t, b);
  }

  lemma SplitDisjoint(m: Blocks, s: nat, a: Block, b: Block)
    requires Disjoint(m) && s in m && Len(a) + Len(b) == Len(m[s]) && Len(a) > 0 && Len(b) > 0
    ensures s + Len(a) !in m
    ensures Disjoint(m[s := a][s + Len(a) := b])
  {
    hide Len;
    var t := s + Len(a);
    assert s + Len(m[s]) <= t || t !in m;
    var m' := m[s := a][t := b];
    forall u, v | u in m' && v in m' && u < v
      ensures u + Len(m'[u]) <= v
    {
      if u != s && u != t && v == t {
        assert u < s;
      }
    }
  }

  /** Two blocks side by side become one. */
  lemma MergeTiled(m: Blocks, bump: nat, s: nat, t: nat, b: Block)
    requires Tiled(m, bump) && s in m && t in m && s + Len(m[s]) == t && s != t
    requires BlockOk(b) && Len(b) == Len(m[s]) + Len(m[t])
    ensures Tiled((m - {t})[s := b], bump)
  {
    SumMerge(m, Len, s, t, b);
    MergeDisjoint(m, s, t, b);
  }

  lemma MergeDisjoint(m: Blocks, s: nat, t: nat, b: Block)
    requires Disjoint(m) && s in m && t in m && s + Len(m[s]) == t && s != t
    requires Len(b) == Len(m[s]) + Len(m[t])
    ensures Disjoint((m - {t})[s := b])
  {
    hide Len;
    var m' := (m - {t})[s := b];
    forall u, v | u in m' && v in m' && u < v
      ensures u + Len(m'[u]) <= v
    {
      assert s + Len(m[s]) <= v || v <= s;
    }
  }

  // ---- what the free lists hold ----

  /** No two free LARGE blocks touch, and none touches the bump pointer. */
  ghost predicate Coalesced(m: Blocks, bump: nat) {
    forall s :: s in m && m[s].Large? ==>
      && s + m[s].n != bump
      && (s + m[s].n in m ==> !m[s + m[s].n].Large?)
  }
}
