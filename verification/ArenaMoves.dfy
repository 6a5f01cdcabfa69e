/** What requests do to the division into blocks (internal/arena/arena.go:252-283,
    internal/arena/freelist.go:105-313). */
module ArenaMoves {
  import opened SizeClasses
  import opened ArenaLayout

  /** No free block serves a request of n words. */
  ghost predicate NoneFits(m: Blocks, n: nat) {
    forall s :: s in m ==>
      if n <= LARGE_THRESHOLD then !(m[s].Small? && m[s].c < NUM_CLASSES && ClassWords(m[s].c) == n)
      else !(m[s].Large? && m[s].n >= n)
  }

  /** Up to 64 words only a free block of just that size serves, past that any LARGE one that is as large. */
  lemma NoneFitsExactly(m: Blocks, n: nat)
    ensures NoneFits(m, n) <==>
      && (n <= 64 ==> forall s :: s in m && m[s].Small? && m[s].c < NUM_CLASSES ==> ClassWords(m[s].c) != n)
      && (n > 64 ==> forall s :: s in m && m[s].Large? ==> m[s].n < n)
  {
  }

  // ---- taking ----

  /** Up to 64 words at r go to the largest class that fits, what is over is a dropped tail. */
  function Returned(m: Blocks, r: nat, rem: nat): Blocks
    requires 0 < rem <= LARGE_THRESHOLD
  {
    var c := Floor(rem);
    var cw := ClassWords(c);
    if cw == rem then m[r := Small(c)] else m[r := Small(c)][r + cw := Tail(rem - cw)]
  }

  /** A free LARGE block of bw words serves `need`: what is left is free again. */
  function Divided(m: Blocks, s: nat, bw: nat, need: nat): Blocks
    requires need <= bw
  {
    var m', rem := m[s := Out(need)], bw - need;
    if rem == 0 then m'
    else if rem > LARGE_THRESHOLD then m'[s + need := Large(rem)]
    else Returned(m', s + need, rem)
  }

  lemma DividedWhole(m: Blocks, s: nat, bw: nat)
    requires s in m && m[s] == Out(bw)
    ensures Divided(m, s, bw, bw) == m
  {
    assert m[s := Out(bw)] == m;
  }

  lemma DividedAnew(m: Blocks, s: nat, bw: nat, need: nat)
    requires need <= bw
    ensures Divided(m[s := Out(bw)], s, bw, need) == Divided(m, s, bw, need)
  {
    assert m[s := Out(bw)][s := Out(need)] == m[s := Out(need)];
  }

  /** The same by way of cutting the block in two first. */
  lemma DividedCut(m: Blocks, s: nat, bw: nat, need: nat)
    requires need < bw
    ensures var r: nat, rem: nat := s + need, bw - need;
      var cut: Blocks := m[s := Out(need)][r := Out(rem)];
      Divided(m, s, bw, need) == if rem > LARGE_THRESHOLD then cut[r := Large(rem)] else Returned(cut, r, rem)
  {
    var r: nat, rem: nat := s + need, bw - need;
    var m': Blocks := m[s := Out(need)];
    assert m'[r := Out(rem)][r := Large(rem)] == m'[r := Large(rem)];
    if rem <= LARGE_THRESHOLD {
      var c := Floor(rem);
      assert m'[r := Out(rem)][r := Small(c)] == m'[r := Small(c)];
    }
  }

  /** A request for n words got the block at `at`: a free one where one fits, and only else the words at
      the bump pointer. */
  ghost predicate Granted(m: Blocks, bump: nat, n: nat, at: nat, m': Blocks, bump': nat) {
    if NoneFits(m, n) then at == bump && m' == m[bump := Out(n)] && bump' == bump + n
    else
      && bump' == bump && at in m
      && if n <= LARGE_THRESHOLD then
           m[at].Small? && m[at].c < NUM_CLASSES && ClassWords(m[at].c) == n && m' == m[at := Out(n)]
         else m[at].Large? && m[at].n >= n && m' == Divided(m, at, m[at].n, n)
  }

  // ---- giving back ----

  ghost predicate EndsAt(m: Blocks, t: nat, s: nat) {
    t in m && m[t].Large? && t + m[t].n == s
  }

  /** Where the free LARGE block that ends at s starts, s itself when there is none. */
  ghost function LeftEdge(m: Blocks, s: nat): nat {
    if t: nat :| EndsAt(m, t, s) then t else s
  }

  /** Where the free LARGE block that starts at e ends, e itself when there is none. */
  ghost function RightEdge(m: Blocks, e: nat): nat {
    if e in m && m[e].Large? then e + m[e].n else e
  }

  /** What is left of the blocks when the n words at r are joined with the free LARGE blocks on both
      sides. */
  ghost function Around(m: Blocks, r: nat, n: nat): Blocks {
    m - {LeftEdge(m, r), r} - (if RightEdge(m, r + n) == r + n then {} else {r + n})
  }

  /** The n words at r are given back: a small block as it is, a larger one joined with its free
      neighbours, below the bump pointer a LARGE block and next to it no block at all. */
  ghost function Freed(m: Blocks, bump: nat, r: nat, n: nat): (Blocks, nat) {
    if n <= LARGE_THRESHOLD then (if n == 0 then m else m[r := Small(SizeClass(n))], bump)
    else
      var s, e := LeftEdge(m, r), RightEdge(m, r + n);
      if e == bump then (Around(m, r, n), s) else (Around(m, r, n)[s := Large(e - s)], bump)
  }
}
